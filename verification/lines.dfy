/**
  The line-based front ends of the bytecode compiler and of the second native back end: what they recognise in a line,
  and when a source prints the same in the virtual machine and as an executable.
 */
module SourceLines {
  import opened Bytecode
  import opened Bytes
  import opened Machine
  import opened Process
  import opened Strings
  import opened Text
  import opened Wrappers
  import opened Numbers
  import Native

  // Keywords.

  predicate EndsWord(c: char) {
    c in SPACE || c == ';'
  }

  /** A line up to its first blank or semicolon. */
  function FirstWord(line: string): (w: string)
    ensures |w| <= |line|
  {
    if |line| == 0 || EndsWord(line[0]) then "" else [line[0]] + FirstWord(line[1..])
  }

  predicate StartsWithKeyword(line: string, keyword: string) {
    Starts(line, keyword) && (|line| == |keyword| || EndsWord(line[|keyword|]))
  }

  predicate Letters(word: string) {
    forall c :: c in word ==> 'a' <= c <= 'z'
  }

  /** A line starts with a keyword exactly when that is its first word, so it starts with one keyword at most. */
  lemma {:induction false} KeywordExact(line: string, keyword: string)
    requires Letters(keyword)
    ensures StartsWithKeyword(line, keyword) <==> FirstWord(line) == keyword
    decreases |line|
  {
    if |line| > 0 && |keyword| > 0 {
      assert keyword == [keyword[0]] + keyword[1..];
      assert keyword[0] in keyword && forall c :: c in keyword[1..] ==> c in keyword;
      KeywordExact(line[1..], keyword[1..]);
      KeywordTail(line, keyword);
    }
  }

  lemma {:induction false} KeywordTail(line: string, keyword: string)
    requires |line| > 0 && |keyword| > 0
    ensures StartsWithKeyword(line, keyword) <==> line[0] == keyword[0] && StartsWithKeyword(line[1..], keyword[1..])
  {
    if |keyword| <= |line| {
      assert line[..|keyword|] == [line[0]] + line[1..][..|keyword| - 1];
      assert keyword == [keyword[0]] + keyword[1..];
    }
  }

  method IsKeyword(line: string, keyword: string) returns (starts: bool)
    requires Letters(keyword)
    ensures starts <==> FirstWord(line) == keyword
  {
    KeywordExact(line, keyword);
    starts := StartsWithKeyword(line, keyword);
  }

  // Lines without effect.

  predicate Ignored(word: string) {
    || word == "if" || word == "else" || word == "loop" || word == "break" || word == "return" || word == "fn"
    || word == "let" || word == "const" || word == "on" || word == "interrupt" || word == "purge" || word == "jitter"
  }

  predicate Skipped(line: string) {
    line == "" || line == "{" || line[0] == '}' || Ignored(FirstWord(line))
  }

  method SkipLine(line: string) returns (skipped: bool)
    ensures skipped <==> Skipped(line)
  {
    if line == "" || line == "{" || line[0] == '}' {
      return true;
    }
    skipped := IsKeyword(line, "if");
    if skipped {
      return;
    }
    skipped := IsKeyword(line, "else");
    if skipped {
      return;
    }
    skipped := IsKeyword(line, "loop");
    if skipped {
      return;
    }
    skipped := IsKeyword(line, "break");
    if skipped {
      return;
    }
    skipped := IsKeyword(line, "return");
    if skipped {
      return;
    }
    skipped := IsKeyword(line, "fn");
    if skipped {
      return;
    }
    skipped := IsKeyword(line, "let");
    if skipped {
      return;
    }
    skipped := IsKeyword(line, "const");
    if skipped {
      return;
    }
    skipped := IsKeyword(line, "on");
    if skipped {
      return;
    }
    skipped := IsKeyword(line, "interrupt");
    if skipped {
      return;
    }
    skipped := IsKeyword(line, "purge");
    if skipped {
      return;
    }
    skipped := IsKeyword(line, "jitter");
    if skipped {
      return;
    }
  }

  // Signals.

  function SignalOf(token: string): Option<byte> {
    if token == "^" then Some(0x01)
    else if token == "_" then Some(0x00)
    else if token == "?" then Some(0xFF)
    else if token == "_>_" then Some(0x10)
    else if token == "_>>_" then Some(0x11)
    else None
  }

  /** What the rest of a line, behind pulse or emit, names: the word that follows a blank. */
  function SignalAfter(rest: string): Option<byte> {
    if rest == "" || rest[0] !in SPACE then None else SignalOf(FirstWord(TrimLeft(rest, SPACE)))
  }

  function ReadSignal(line: string): Option<Stmt> {
    if Starts(line, "pulse") then
      match SignalAfter(line[5..]) case None => None case Some(v) => Some(Pulse(v))
    else if Starts(line, "emit") then
      match SignalAfter(line[4..]) case None => None case Some(v) => Some(Emit(v))
    else None
  }

  lemma {:induction false} FirstWordUpTo(line: string, n: nat)
    requires n <= |line| && forall k :: 0 <= k < n ==> !EndsWord(line[k])
    requires n == |line| || EndsWord(line[n])
    ensures FirstWord(line) == line[..n]
    decreases n
  {
    if n > 0 {
      FirstWordUpTo(line[1..], n - 1);
      assert line[..n] == [line[0]] + line[1..][..n - 1];
    }
  }

  method SkipBlanks(line: string, start: nat) returns (p: nat)
    requires start <= |line|
    ensures start <= p <= |line| && TrimLeft(line[start..], SPACE) == line[p..]
  {
    p := start;
    while p < |line| && line[p] in SPACE
      invariant start <= p <= |line|
      invariant TrimLeft(line[p..], SPACE) == TrimLeft(line[start..], SPACE)
    {
      assert line[p..][1..] == line[p + 1..];
      p := p + 1;
    }
  }

  /** The word behind the blanks that start there. */
  method NextWord(line: string, start: nat) returns (word: string)
    requires start <= |line|
    ensures word == FirstWord(TrimLeft(line[start..], SPACE))
  {
    var begin := SkipBlanks(line, start);
    var p := begin;
    while p < |line| && !EndsWord(line[p])
      invariant begin <= p <= |line| && forall k :: begin <= k < p ==> !EndsWord(line[k])
    {
      p := p + 1;
    }
    FirstWordUpTo(line[begin..], p - begin);
    word := line[begin..p];
    assert word == line[begin..][..p - begin];
  }

  method ParsePulseOrEmit(line: string) returns (r: Option<Stmt>)
    ensures r == ReadSignal(line)
  {
    var pulse, emit := Starts(line, "pulse"), Starts(line, "emit");
    if !pulse && !emit {
      return None;
    }
    var length := if pulse then 5 else 4;
    if |line| <= length || line[length] !in SPACE {
      return None;
    }
    var token := NextWord(line, length);
    if token == "" {
      return None;
    }
    var signal := ReadSignalToken(token);
    if signal == None {
      return None;
    }
    return Some(if pulse then Pulse(signal.value) else Emit(signal.value));
  }

  method ReadSignalToken(token: string) returns (signal: Option<byte>)
    ensures signal == SignalOf(token)
  {
    if token == "^" {
      return Some(0x01);
    }
    if token == "_" {
      return Some(0x00);
    }
    if token == "?" {
      return Some(0xFF);
    }
    if token == "_>_" {
      return Some(0x10);
    }
    if token == "_>>_" {
      return Some(0x11);
    }
    return None;
  }

  // MMIO writes.

  /** An MMIO line in the bytecode compiler: a store, a line to ignore, or an error. */
  function ReadMmio(line: string): Option<Stmt>
    requires |line| > 0 && line[0] == '@'
  {
    var eq := Find(line, "=", 0);
    if eq <= 0 then Some(Unread(line))
    else MmioOf(line, Stoul(Trim(line[1..eq], SPACE)), Stoul(ValueText(line[eq + 1..])))
  }

  function ValueText(s: string): string {
    var t := Trim(s, SPACE);
    Trim(if |t| > 0 && t[|t| - 1] == ';' then t[..|t| - 1] else t, SPACE)
  }

  function MmioOf(line: string, address: Option<Word>, value: Option<Word>): Option<Stmt> {
    if address == None || value == None then Some(Unread(line))
    else if address.value > 0xFF || value.value > 0xFF then None
    else Some(Mmio(address.value, value.value, line))
  }

  method ParseMmio(line: string) returns (r: Option<Stmt>)
    requires |line| > 0 && line[0] == '@'
    ensures r == ReadMmio(line)
  {
    var eq := Find(line, "=", 0);
    if eq == -1 {
      return Some(Unread(line));
    }
    assert eq > 0 by {
      assert line[0..1][0] == line[0];
    }
    var addressText := TrimBoth(line[1..eq], SPACE);
    var rhs := TrimBoth(line[eq + 1..], SPACE);
    if |rhs| > 0 && rhs[|rhs| - 1] == ';' {
      rhs := rhs[..|rhs| - 1];
    }
    rhs := TrimBoth(rhs, SPACE);
    var address := Stoul(addressText);
    if address == None {
      return Some(Unread(line));
    }
    var value := Stoul(rhs);
    if value == None {
      return Some(Unread(line));
    }
    if address.value > 0xFF || value.value > 0xFF {
      return None;
    }
    return Some(Mmio(address.value, value.value, line));
  }

  // Lines.

  datatype Reading =
    | Nothing
    | Statement(s: Stmt)
    | Directive
    | Memory
    | Malformed

  function ReadingOf(s: Option<Stmt>): Reading {
    match s
    case None => Malformed
    case Some(stmt) => Statement(stmt)
  }

  function ReadSay(line: string): Option<Stmt> {
    match Extracted(line, false, false, "")
    case None => None
    case Some(text) => Some(Say(text))
  }

  /** What both front ends take a line for; the order of their tests does not matter. */
  function Read(line: string): (r: Reading)
    ensures r.Memory? ==> |line| > 0 && line[0] == '@'
  {
    if Skipped(line) then Nothing
    else if FirstWord(line) == "say" then ReadingOf(ReadSay(line))
    else if FirstWord(line) == "halt" then Statement(Halt)
    else if FirstWord(line) == "ui" then Directive
    else if FirstWord(line) == "pulse" || FirstWord(line) == "emit" then ReadingOf(ReadSignal(line))
    else if line[0] == '@' then Memory
    else Nothing
  }

  /** What the bytecode compiler makes of a line: statements, or an error. User interface directives are ignored. */
  function Compiles(line: string): Option<seq<Stmt>> {
    match Read(line)
    case Nothing => Some([])
    case Directive => Some([])
    case Statement(s) => Some([s])
    case Memory => (match ReadMmio(line) case None => None case Some(s) => Some([s]))
    case Malformed => None
  }

  /** What the native front end collects from it, with what a directive prints left open. */
  function Collects(line: string, ui: string -> seq<string>): Option<seq<string>> {
    match Read(line)
    case Nothing => Some([])
    case Directive => Some(ui(line))
    case Statement(s) => Some(WriteOf(s))
    case Memory => Some([MmioLine(line)])
    case Malformed => None
  }

  method CompileLine(line: string) returns (r: Option<seq<Stmt>>)
    ensures r == Compiles(line)
  {
    var found := SkipLine(line);
    if found {
      return Some([]);
    }
    found := IsKeyword(line, "say");
    if found {
      var text := ExtractQuotedString(line);
      return if text == None then None else Some([Say(text.value)]);
    }
    found := IsKeyword(line, "halt");
    if found {
      return Some([Halt]);
    }
    found := IsKeyword(line, "pulse");
    if !found {
      found := IsKeyword(line, "emit");
    }
    if found {
      var signal := ParsePulseOrEmit(line);
      return if signal == None then None else Some([signal.value]);
    }
    if line[0] == '@' {
      AtSign(line);
      var mmio := ParseMmio(line);
      return if mmio == None then None else Some([mmio.value]);
    }
    return Some([]);
  }

  lemma {:induction false} AtSign(line: string)
    requires |line| > 0 && line[0] == '@'
    ensures FirstWord(line) != "ui"
  {
    assert FirstWord(line)[0] == '@';
  }

  method CollectLine(line: string, ui: string -> seq<string>, writes: seq<string>) returns (more: Option<seq<string>>)
    ensures more == match Collects(line, ui) case None => None case Some(ws) => Some(writes + ws)
  {
    var found := SkipLine(line);
    if found {
      return Some(writes + []);
    }
    found := IsKeyword(line, "say");
    if found {
      var text := ExtractQuotedString(line);
      return if text == None then None else Some(writes + [text.value + "\n"]);
    }
    found := IsKeyword(line, "ui");
    if found {
      return Some(writes + ui(line));
    }
    found := IsKeyword(line, "pulse");
    if !found {
      found := IsKeyword(line, "emit");
    }
    if found {
      var signal := ParsePulseOrEmit(line);
      return if signal == None then None else Some(writes + [OutputOf(signal.value)]);
    }
    found := IsKeyword(line, "halt");
    if found {
      return Some(writes + []);
    }
    if line[0] == '@' {
      return Some(writes + ["[mmio] " + line + "\n"]);
    }
    return Some(writes + []);
  }

  // Sources.

  function Joint<T>(a: Option<seq<T>>, b: Option<seq<T>>): Option<seq<T>> {
    if a == None || b == None then None else Some(a.value + b.value)
  }

  /** The statements that the bytecode compiler reads. */
  function Statements(lines: seq<string>): Option<seq<Stmt>> {
    if |lines| == 0 then Some([])
    else Joint(Statements(lines[..|lines| - 1]), Compiles(Normalized(lines[|lines| - 1])))
  }

  /** The writes that the native front end collects. */
  function Collected(lines: seq<string>, ui: string -> seq<string>): Option<seq<string>> {
    if |lines| == 0 then Some([])
    else Joint(Collected(lines[..|lines| - 1], ui), Collects(Normalized(lines[|lines| - 1]), ui))
  }

  lemma {:induction false} FailsBefore(lines: seq<string>, i: nat, ui: string -> seq<string>)
    requires i <= |lines|
    ensures Statements(lines[..i]) == None ==> Statements(lines) == None
    ensures Collected(lines[..i], ui) == None ==> Collected(lines, ui) == None
    decreases |lines|
  {
    if i == |lines| {
      assert lines[..i] == lines;
    } else {
      FailsBefore(lines[..|lines| - 1], i, ui);
      assert lines[..|lines| - 1][..i] == lines[..i];
    }
  }

  lemma {:induction false} NextLine(lines: seq<string>, i: nat, ui: string -> seq<string>)
    requires i < |lines|
    ensures Statements(lines[..i + 1]) == Joint(Statements(lines[..i]), Compiles(Normalized(lines[i])))
    ensures Collected(lines[..i + 1], ui) == Joint(Collected(lines[..i], ui), Collects(Normalized(lines[i]), ui))
  {
    assert lines[..i + 1][..i] == lines[..i];
  }

  function CompiledSource(lines: seq<string>): Option<seq<byte>> {
    match Statements(lines)
    case None => None
    case Some(stmts) => Some(Compiled(stmts))
  }

  /** The statement that a line is read as, if any, appended; how many operations that makes, and if one halts. */
  method EmitRead(bytecode: seq<byte>, read: seq<Stmt>, ghost stmts: seq<Stmt>)
    returns (out: seq<byte>, ops: nat, halt: bool)
    requires |read| <= 1 && bytecode == Flatten(Front(stmts))
    ensures out == Flatten(Front(stmts + read))
    ensures (halt <==> HasHalt(read)) && (halt ==> ops > 0)
  {
    if |read| == 0 {
      assert stmts + read == stmts;
      return bytecode, 0, false;
    }
    assert read == [read[0]];
    FrontStep(stmts, read[0]);
    out := EmitStatement(bytecode, read[0]);
    halt := read[0].Halt?;
    ops := if read[0].Say? || read[0].Halt? then 1 else if read[0].Unread? then 0 else 2;
  }

  lemma {:induction false} HaltConcat(a: seq<Stmt>, b: seq<Stmt>)
    ensures HasHalt(a + b) <==> HasHalt(a) || HasHalt(b)
  {
  }

  method CompileSource(lines: seq<string>) returns (file: Option<seq<byte>>)
    ensures file == CompiledSource(lines)
  {
    var bytecode, emittedOps, hasHalt := MAGIC, 0, false;
    ghost var stmts: seq<Stmt> := [];
    FlattenOne(MAGIC);
    assert Front([]) == [MAGIC];
    for i := 0 to |lines|
      invariant Statements(lines[..i]) == Some(stmts)
      invariant bytecode == Flatten(Front(stmts))
      invariant hasHalt <==> HasHalt(stmts)
      invariant emittedOps >= if hasHalt then 1 else 0
    {
      NextLine(lines, i, line => []);
      var line := NormalizeSourceLine(lines[i]);
      var read := CompileLine(line);
      if read == None {
        FailsBefore(lines, i + 1, line => []);
        return None;
      }
      var ops, halt;
      bytecode, ops, halt := EmitRead(bytecode, read.value, stmts);
      emittedOps, hasHalt := emittedOps + ops, hasHalt || halt;
      HaltConcat(stmts, read.value);
      stmts := stmts + read.value;
    }
    assert lines[..|lines|] == lines;
    CompiledEnd(stmts);
    if emittedOps == 0 || !hasHalt {
      bytecode := bytecode + [HALT];
    } else {
      assert bytecode + [] == bytecode;
    }
    return Some(bytecode);
  }

  method ParseNativeProgram(lines: seq<string>, ui: string -> seq<string>) returns (writes: Option<seq<string>>)
    ensures writes == Collected(lines, ui)
  {
    var program := [];
    for i := 0 to |lines|
      invariant Collected(lines[..i], ui) == Some(program)
    {
      NextLine(lines, i, ui);
      var line := NormalizeSourceLine(lines[i]);
      var more := CollectLine(line, ui, program);
      if more == None {
        FailsBefore(lines, i + 1, ui);
        return None;
      }
      program := more.value;
    }
    assert lines[..|lines|] == lines;
    return Some(program);
  }

  /** An MMIO write whose address or value is no byte, an error for the bytecode compiler alone. */
  predicate OutOfRange(rawLine: string) {
    var line := Normalized(rawLine);
    Read(line) == Memory && ReadMmio(line) == None
  }

  predicate InRange(lines: seq<string>) {
    forall i :: 0 <= i < |lines| ==> !OutOfRange(lines[i])
  }

  lemma {:induction false} InRangeLast(lines: seq<string>)
    requires |lines| > 0
    ensures InRange(lines) <==> InRange(lines[..|lines| - 1]) && !OutOfRange(lines[|lines| - 1])
  {
    assert lines == lines[..|lines| - 1] + [lines[|lines| - 1]];
  }

  lemma {:induction false} LineAccepted(rawLine: string, ui: string -> seq<string>)
    ensures Compiles(Normalized(rawLine)) != None
      <==> Collects(Normalized(rawLine), ui) != None && !OutOfRange(rawLine)
  {
  }

  /** The bytecode compiler takes a source if and only if the native front end does and every MMIO write that can be
      read is in range. */
  lemma {:induction false} AcceptedExact(lines: seq<string>, ui: string -> seq<string>)
    ensures Statements(lines) != None <==> Collected(lines, ui) != None && InRange(lines)
    decreases |lines|
  {
    if |lines| > 0 {
      AcceptedExact(lines[..|lines| - 1], ui);
      LineAccepted(lines[|lines| - 1], ui);
      InRangeLast(lines);
    }
  }

  predicate NoDirective(lines: seq<string>) {
    forall i :: 0 <= i < |lines| ==> Read(Normalized(lines[i])) != Directive
  }

  lemma {:induction false} WritesConcat(a: seq<Stmt>, b: seq<Stmt>)
    ensures Writes(a + b) == Writes(a) + Writes(b)
    decreases |a|
  {
    if |a| == 0 {
      assert a + b == b;
    } else {
      assert (a + b)[1..] == a[1..] + b;
      WritesConcat(a[1..], b);
    }
  }

  /** Without directives the native front end collects what the statements write. */
  lemma {:induction false} SameStatements(lines: seq<string>, ui: string -> seq<string>)
    requires Statements(lines) != None && NoDirective(lines)
    ensures Collected(lines, ui) == Some(Writes(Statements(lines).value))
    decreases |lines|
  {
    if |lines| > 0 {
      var before, last := lines[..|lines| - 1], Normalized(lines[|lines| - 1]);
      SameStatements(before, ui);
      LineWrites(last, ui);
      WritesConcat(Statements(before).value, Compiles(last).value);
    }
  }

  lemma {:induction false} LineWrites(line: string, ui: string -> seq<string>)
    requires Compiles(line) != None && Read(line) != Directive
    ensures Collects(line, ui) == Some(Writes(Compiles(line).value))
  {
    var stmts := Compiles(line).value;
    if |stmts| == 1 {
      assert stmts[1..] == [];
      assert Writes(stmts) == WriteOf(stmts[0]);
    }
  }

  lemma {:induction false} TrimChars(s: string, ws: Blanks, c: char)
    requires c in Trim(s, ws)
    ensures c in s
  {
    TrimRightChars(TrimLeft(s, ws), ws, c);
    TrimLeftChars(s, ws, c);
  }

  lemma {:induction false} TrimLeftChars(s: string, ws: Blanks, c: char)
    requires c in TrimLeft(s, ws)
    ensures c in s
    decreases |s|
  {
    if |s| > 0 && s[0] in ws {
      TrimLeftChars(s[1..], ws, c);
    }
  }

  lemma {:induction false} TrimRightChars(s: string, ws: Blanks, c: char)
    requires c in TrimRight(s, ws)
    ensures c in s
    decreases |s|
  {
    if |s| > 0 && s[|s| - 1] in ws {
      TrimRightChars(s[..|s| - 1], ws, c);
    }
  }

  lemma {:induction false} NormalizedOneLine(line: string)
    requires OneLine(line)
    ensures OneLine(Normalized(line))
  {
    var kept, normal := line[..Kept(line, false, false)], Normalized(line);
    forall k | 0 <= k < |normal| ensures BytesOf(normal)[k] != LINE_FEED {
      TrimChars(kept, SPACE, normal[k]);
      var j :| 0 <= j < |line| && line[j] == normal[k];
      assert BytesOf(line)[j] in BytesOf(line);
    }
  }

  lemma {:induction false} WholeConcat(a: seq<Stmt>, b: seq<Stmt>)
    requires LinesWhole(a) && LinesWhole(b)
    ensures LinesWhole(a + b)
  {
    forall i | 0 <= i < |a + b| && IsMmio((a + b)[i]) ensures OneLine((a + b)[i].line) {
      assert i >= |a| ==> (a + b)[i] == b[i - |a|];
    }
  }

  lemma {:induction false} LineWhole(line: string)
    requires Compiles(line) != None && OneLine(line)
    ensures LinesWhole(Compiles(line).value)
  {
  }

  predicate LinesRead(lines: seq<string>) {
    forall i :: 0 <= i < |lines| ==> OneLine(lines[i])
  }

  /** The lines of a source, as they are read, have no line feed. */
  lemma {:induction false} StatementsWhole(lines: seq<string>)
    requires Statements(lines) != None && LinesRead(lines)
    ensures LinesWhole(Statements(lines).value)
    decreases |lines|
  {
    if |lines| > 0 {
      var before, last := lines[..|lines| - 1], Normalized(lines[|lines| - 1]);
      StatementsWhole(before);
      NormalizedOneLine(lines[|lines| - 1]);
      LineWhole(last);
      WholeConcat(Statements(before).value, Compiles(last).value);
    }
  }

  /** A source without user interface directives, compiled by both, prints the same in the virtual machine and as an
      executable if and only if no output follows its first halt and it has no MMIO line. */
  lemma {:induction false} SourceAgreesExact(lines: seq<string>, ui: string -> seq<string>, stmts: seq<Stmt>,
          writes: seq<string>, regs: Registers, s: State)
    requires LinesRead(lines) && NoDirective(lines)
    requires Statements(lines) == Some(stmts) && TextsFit(stmts)
    requires Collected(lines, ui) == Some(writes) && Fits(Native.PayloadChunks(writes))
    requires forall i :: 0 <= i < |writes| ==> |writes[i]| < TWO31
    requires EndsIn(ImageOf(Native.PayloadChunks(writes)), regs, s)
    ensures s.Exited? && s.code == 0
    ensures VmFile(CompiledSource(lines).value).status == Halted
    ensures Printed(s.trace) == VmFile(CompiledSource(lines).value).output <==> NothingAfterHalt(stmts) && NoMmio(stmts)
  {
    StatementsWhole(lines);
    SameStatements(lines, ui);
    CompiledRuns(stmts);
    VmAgreesWithNative(stmts, regs, s);
  }
}
