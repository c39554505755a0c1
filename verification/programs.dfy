/**
  What a source prints: the lines that mean something, in any layout, and what they print one behind the other, up to
  the first halt.
 */
module Programs {
  import opened Bytecode
  import opened Bytes
  import opened Numbers
  import opened SourceLines
  import opened Strings
  import opened Text
  import opened Wrappers

  // Lines.

  /** A say line with any text, in any layout, is a say statement with that text. */
  lemma {:induction false} SayLineCompiles(before: string, s: string, after: string, comment: string)
    requires AllBlank(before, SPACE) && AllBlank(after, SPACE) && (comment == "" || Starts(comment, "//"))
    ensures Compiles(Normalized(before + SayLine(s) + after + comment)) == Some([Say(s)])
  {
    var line := SayLine(s);
    SayLineNormalized(before, s, after, comment);
    ExtractQuoted("say ", s, ";");
    assert line[..3] == "say" && line[3] == ' ';
    FirstWordUpTo(line, 3);
  }

  function StoreLine(address: Word, value: Word): string {
    "@" + ("0x" + Spelled(address, Hex, false)) + " = " + Spelled(value, Decimal, false) + ";"
  }

  /** Nothing that a number cannot have. */
  predicate NumberLike(s: string) {
    forall k :: 0 <= k < |s| ==> DigitValue(s[k]) < 36
  }

  lemma {:induction false} NumberText(before: string, s: string, after: string)
    requires NumberLike(s) && AllBlank(before, SPACE) && AllBlank(after, SPACE)
    ensures Trim(before + s + after, SPACE) == s
  {
    TrimAround(before, s, after, SPACE);
  }

  lemma {:induction false} SpelledNumber(v: nat, r: Radix)
    ensures NumberLike(Spelled(v, r, false)) && NumberLike("0x" + Spelled(v, r, false))
  {
    SpelledDigits(v, r, false);
  }

  lemma {:induction false} ValueTextRead(s: string)
    requires NumberLike(s)
    ensures ValueText(" " + s + ";") == s
  {
    var t := s + ";";
    assert " " + s + ";" == " " + t + "";
    TrimAround(" ", t, "", SPACE);
    assert t[..|t| - 1] == s;
    NumberText("", s, "");
    assert "" + s + "" == s;
  }

  lemma {:induction false} EqualsSign(front: string, rest: string)
    requires NumberLike(front)
    ensures Find("@" + front + " =" + rest, "=", 0) == |front| + 2
  {
    var line := "@" + front + " =" + rest;
    forall j | 0 <= j < |front| + 2 ensures !Strings.At(line, "=", j) {
      assert line[j] != '=' by {
        if 1 <= j <= |front| {
          assert line[j] == front[j - 1];
        }
      }
      assert line[j..j + 1][0] == line[j];
    }
    assert line[|front| + 2..|front| + 3] == "=";
    FindIs(line, "=", |front| + 2);
  }

  lemma {:induction false} MmioParts(line: string, a: string, v: string)
    requires NumberLike(a) && NumberLike(v) && line == "@" + a + " = " + v + ";"
    ensures ReadMmio(line) == MmioOf(line, Stoul(a), Stoul(v))
  {
    var eq, rest := |a| + 2, " " + v + ";";
    assert line == "@" + a + " =" + rest;
    EqualsSign(a, rest);
    assert line[1..eq] == "" + a + " ";
    NumberText("", a, " ");
    assert line[eq + 1..] == rest;
    ValueTextRead(v);
  }

  lemma {:induction false} StoreLineParsed(address: Word, value: Word)
    ensures ReadMmio(StoreLine(address, value))
         == if address > 0xFF || value > 0xFF then None else Some(Mmio(address, value, StoreLine(address, value)))
  {
    SpelledNumber(address, Hex);
    SpelledNumber(value, Decimal);
    MmioParts(StoreLine(address, value), "0x" + Spelled(address, Hex, false), Spelled(value, Decimal, false));
    NumberRead(address);
    NumberRead(value);
  }

  /** An MMIO line with any numbers of 64 bits, in any layout, is that store if both are one byte, and an error if not;
      the native front end takes it in any case. */
  lemma {:induction false} StoreLineCompiles(before: string, address: Word, value: Word, after: string, comment: string)
    requires AllBlank(before, SPACE) && AllBlank(after, SPACE) && (comment == "" || Starts(comment, "//"))
    ensures var line := StoreLine(address, value);
      && Normalized(before + line + after + comment) == line
      && Compiles(line) == (if address > 0xFF || value > 0xFF then None else Some([Mmio(address, value, line)]))
      && forall ui :: Collects(line, ui) == Some([MmioLine(line)])
  {
    var line := StoreLine(address, value);
    StoreLineShape(address, value);
    PlainNormalized(before, line, after, comment);
    StoreLineParsed(address, value);
    MemoryRead(line);
  }

  lemma {:induction false} StoreLineShape(address: Word, value: Word)
    ensures Plain(StoreLine(address, value)) && Tight(StoreLine(address, value), SPACE)
    ensures StoreLine(address, value)[0] == '@'
  {
    var a, v := "0x" + Spelled(address, Hex, false), Spelled(value, Decimal, false);
    SpelledNumber(address, Hex);
    SpelledNumber(value, Decimal);
    PlainConcat("@" + a, " = ");
    PlainConcat("@" + a + " = ", v);
    PlainConcat("@" + a + " = " + v, ";");
  }

  lemma {:induction false} PlainConcat(a: string, b: string)
    requires (Plain(a) || (|a| > 0 && a[0] == '@' && NumberLike(a[1..]))) && (Plain(b) || NumberLike(b))
    ensures Plain(a + b)
  {
    forall i | 0 <= i < |a| ensures a[i] != '"' && a[i] != '/' {
      assert !Plain(a) && i > 0 ==> a[1..][i - 1] == a[i];
    }
  }

  lemma {:induction false} MemoryRead(line: string)
    requires |line| > 0 && line[0] == '@'
    ensures Read(line) == Memory
  {
    assert FirstWord(line)[0] == '@';
  }

  lemma {:induction false} PlainNormalized(before: string, line: string, after: string, comment: string)
    requires AllBlank(before, SPACE) && AllBlank(after, SPACE) && (comment == "" || Starts(comment, "//"))
    requires Plain(line) && Tight(line, SPACE)
    ensures Normalized(before + line + after + comment) == line
  {
    var whole, front := before + line + after + comment, before + line + after;
    KeepPlain(front, comment);
    if comment != "" {
      assert comment[0] == comment[..2][0] && comment[1] == comment[..2][1];
    }
    assert whole[..|front|] == front;
    TrimAround(before, line, after, SPACE);
  }

  // Halt.

  function HaltLine(semicolon: bool): string {
    if semicolon then "halt;" else "halt"
  }

  lemma {:induction false} LettersRead(word: string, rest: string)
    requires Letters(word) && (rest == "" || EndsWord(rest[0]))
    ensures FirstWord(word + rest) == word
  {
    assert (word + rest)[..|word|] == word;
    KeywordExact(word + rest, word);
  }

  lemma {:induction false} HaltLineShape(semicolon: bool)
    ensures var line := HaltLine(semicolon); Plain(line) && Tight(line, SPACE) && FirstWord(line) == "halt"
  {
    LettersRead("halt", if semicolon then ";" else "");
    assert HaltLine(semicolon) == "halt" + if semicolon then ";" else "";
  }

  /** The lines that halt are those whose first word is halt. */
  lemma {:induction false} HaltExact(line: string)
    ensures Compiles(line) == Some([Halt]) <==> FirstWord(line) == "halt"
  {
    if FirstWord(line) == "halt" {
      assert FirstWord(line)[0] == line[0];
    }
  }

  /** A halt line, with or without its semicolon, in any layout, halts. */
  lemma {:induction false} HaltLineCompiles(before: string, semicolon: bool, after: string, comment: string)
    requires AllBlank(before, SPACE) && AllBlank(after, SPACE) && (comment == "" || Starts(comment, "//"))
    ensures Compiles(Normalized(before + HaltLine(semicolon) + after + comment)) == Some([Halt])
  {
    HaltLineShape(semicolon);
    PlainNormalized(before, HaltLine(semicolon), after, comment);
    HaltExact(HaltLine(semicolon));
  }

  /** Directives are the lines whose first word is ui: nothing to the bytecode compiler, and what the user interface
      makes of them to the native front end. */
  lemma {:induction false} DirectiveExact(line: string, ui: string -> seq<string>)
    ensures Read(line) == Directive <==> FirstWord(line) == "ui"
    ensures FirstWord(line) == "ui" ==> Compiles(line) == Some([]) && Collects(line, ui) == Some(ui(line))
  {
    if FirstWord(line) == "ui" {
      assert FirstWord(line)[0] == line[0];
    }
  }

  /** A line that starts with none of five words, and not with an at sign, has no effect in either front end. */
  lemma {:induction false} OtherLinesNothing(line: string, ui: string -> seq<string>)
    requires FirstWord(line) !in ["say", "halt", "ui", "pulse", "emit"]
    requires line == "" || line[0] != '@'
    ensures Compiles(line) == Some([]) && Collects(line, ui) == Some([])
  {
    assert "say" in ["say", "halt", "ui", "pulse", "emit"] && "halt" in ["say", "halt", "ui", "pulse", "emit"];
    assert "ui" in ["say", "halt", "ui", "pulse", "emit"] && "pulse" in ["say", "halt", "ui", "pulse", "emit"];
    assert "emit" in ["say", "halt", "ui", "pulse", "emit"];
  }

  // Signals.

  datatype Signal = Low | High | Uncertain | Falling | DoubleFalling

  function Token(s: Signal): string {
    match s
    case Low => "_"
    case High => "^"
    case Uncertain => "?"
    case Falling => "_>_"
    case DoubleFalling => "_>>_"
  }

  function Name(s: Signal): string {
    match s
    case Low => "LOW"
    case High => "HIGH"
    case Uncertain => "UNCERTAIN"
    case Falling => "FALLING"
    case DoubleFalling => "DOUBLE_FALLING"
  }

  /** Exactly five tokens are signals, and each is printed by its name. */
  lemma {:induction false} SignalExact(token: string)
    ensures SignalOf(token) != None <==> exists s: Signal :: token == Token(s)
    ensures forall s: Signal :: token == Token(s) ==> SignalName(SignalOf(token).value) == Name(s)
  {
    if SignalOf(token) != None {
      assert token == Token(Low) || token == Token(High) || token == Token(Uncertain) || token == Token(Falling)
          || token == Token(DoubleFalling);
    }
  }

  function Keyword(pulse: bool): string {
    if pulse then "pulse" else "emit"
  }

  /** A keyword, blanks, a word, and what follows it. */
  function SignalLine(pulse: bool, gap: string, token: string, rest: string): string {
    Keyword(pulse) + (gap + (token + rest))
  }

  function SignalStatement(pulse: bool, token: string): Option<Stmt> {
    match SignalOf(token)
    case None => None
    case Some(v) => Some(if pulse then Pulse(v) else Emit(v))
  }

  lemma {:induction false} SignalRead(pulse: bool, gap: string, token: string, rest: string)
    requires gap != "" && AllBlank(gap, SPACE) && (forall k :: 0 <= k < |token| ==> !EndsWord(token[k]))
    requires (rest == "" || EndsWord(rest[0])) && (token == "" ==> rest == "" || rest[0] == ';')
    ensures ReadSignal(SignalLine(pulse, gap, token, rest)) == SignalStatement(pulse, token)
  {
    var line, n := SignalLine(pulse, gap, token, rest), |Keyword(pulse)|;
    assert line[..n] == Keyword(pulse);
    assert line[n..] == gap + (token + rest);
    assert !pulse ==> line[0] == 'e';
    assert pulse ==> line[0] == 'p';
    if Starts(line, "pulse") {
      assert line[0] == line[..5][0];
    }
    TrimLeftBlanks(gap, token + rest, SPACE);
    FirstWordUpTo(token + rest, |token|);
    assert (token + rest)[..|token|] == token;
  }

  /** A pulse or emit line is that statement if the word behind the keyword is one of the five tokens, and an error if
      not; whatever is behind the word. */
  lemma {:induction false} SignalLineCompiles(pulse: bool, gap: string, token: string, rest: string)
    requires gap != "" && AllBlank(gap, SPACE) && (forall k :: 0 <= k < |token| ==> !EndsWord(token[k]))
    requires (rest == "" || EndsWord(rest[0])) && (token == "" ==> rest == "" || rest[0] == ';')
    ensures Compiles(SignalLine(pulse, gap, token, rest))
         == match SignalStatement(pulse, token) case None => None case Some(s) => Some([s])
  {
    var line := SignalLine(pulse, gap, token, rest);
    SignalRead(pulse, gap, token, rest);
    LettersRead(Keyword(pulse), gap + (token + rest));
    assert line[0] == Keyword(pulse)[0];
  }

  lemma {:induction false} TokenShape(s: Signal)
    ensures Plain(Token(s)) && forall k :: 0 <= k < |Token(s)| ==> !EndsWord(Token(s)[k])
  {
  }

  lemma {:induction false} SignalLineShape(pulse: bool, s: Signal, semicolon: bool)
    ensures var line := SignalLine(pulse, " ", Token(s), if semicolon then ";" else "");
      Plain(line) && Tight(line, SPACE)
  {
    var rest := if semicolon then ";" else "";
    TokenShape(s);
    PlainConcat(Token(s), rest);
    PlainConcat(" ", Token(s) + rest);
    PlainConcat(Keyword(pulse), " " + (Token(s) + rest));
    var tail := Token(s) + rest;
    assert SignalLine(pulse, " ", Token(s), rest) == Keyword(pulse) + " " + tail;
    assert tail[|tail| - 1] == if semicolon then ';' else Token(s)[|Token(s)| - 1];
  }

  /** The usual spelling, in any layout. */
  lemma {:induction false} SignalLineRead(before: string, pulse: bool, s: Signal, semicolon: bool, after: string,
          comment: string)
    requires AllBlank(before, SPACE) && AllBlank(after, SPACE) && (comment == "" || Starts(comment, "//"))
    ensures var line := SignalLine(pulse, " ", Token(s), if semicolon then ";" else "");
      && SignalStatement(pulse, Token(s)) != None
      && Compiles(Normalized(before + line + after + comment)) == Some([SignalStatement(pulse, Token(s)).value])
  {
    var rest := if semicolon then ";" else "";
    SignalExact(Token(s));
    TokenShape(s);
    SignalLineCompiles(pulse, " ", Token(s), rest);
    SignalLineShape(pulse, s, semicolon);
    PlainNormalized(before, SignalLine(pulse, " ", Token(s), rest), after, comment);
  }

  /** The byte that stands for a signal. */
  function Code(s: Signal): byte {
    match s
    case Low => 0
    case High => 1
    case Uncertain => 255
    case Falling => 16
    case DoubleFalling => 17
  }

  function PaddedHex(v: byte): string {
    "0x" + (if v < 16 then "0" else "") + Spelled(v, Hex, false)
  }

  /** Five bytes have the name of their signal, and all others two hexadecimal digits. */
  lemma {:induction false} NameExact(v: byte)
    ensures (exists s: Signal :: Code(s) == v) || SignalName(v) == PaddedHex(v)
    ensures forall s: Signal :: Code(s) == v ==> SignalName(v) == Name(s) && SignalOf(Token(s)) == Some(v)
  {
    if v == 0 {
      assert Code(Low) == v;
    } else if v == 1 {
      assert Code(High) == v;
    } else if v == 255 {
      assert Code(Uncertain) == v;
    } else if v == 16 {
      assert Code(Falling) == v;
    } else if v == 17 {
      assert Code(DoubleFalling) == v;
    } else if v < 16 {
      assert "0x" + "0" + [DigitChar(v, false)] == ['0', 'x', HexDigit(0), HexDigit(v)];
    } else {
      var q := v / 16;
      assert Spelled(q, Hex, false) == [DigitChar(q, false)];
      assert "0x" + "" + ([DigitChar(q, false)] + [DigitChar(v % 16, false)])
          == ['0', 'x', HexDigit(q), HexDigit(v % 16)];
    }
  }

  // Sources.

  predicate Accepted(lines: seq<string>) {
    Statements(lines) != None && TextsFit(Statements(lines).value)
  }

  /** What the compiled source prints in the virtual machine. */
  function Prints(lines: seq<string>): seq<byte>
    requires Accepted(lines)
  {
    VmFile(CompiledSource(lines).value).output
  }

  predicate HaltsAt(lines: seq<string>, i: int) {
    0 <= i < |lines| && FirstWord(Normalized(lines[i])) == "halt"
  }

  ghost predicate HaltsIn(lines: seq<string>) {
    exists i :: HaltsAt(lines, i)
  }

  lemma {:induction false} HaltsInLast(lines: seq<string>)
    requires |lines| > 0
    ensures HaltsIn(lines) <==> HaltsIn(lines[..|lines| - 1]) || HaltsAt(lines, |lines| - 1)
  {
    var front := lines[..|lines| - 1];
    if i :| HaltsAt(lines, i) {
      assert i < |front| ==> HaltsAt(front, i);
    }
    if i :| HaltsAt(front, i) {
      assert HaltsAt(lines, i);
    }
  }

  lemma {:induction false} LineHalts(line: string)
    requires Compiles(line) != None
    ensures HasHalt(Compiles(line).value) <==> FirstWord(line) == "halt"
  {
    HaltExact(line);
    var stmts := Compiles(line).value;
    if HasHalt(stmts) {
      assert stmts == [stmts[0]];
    }
  }

  lemma {:induction false} HaltsExact(lines: seq<string>)
    requires Statements(lines) != None
    ensures HasHalt(Statements(lines).value) <==> HaltsIn(lines)
    decreases |lines|
  {
    if |lines| > 0 {
      var before, last := lines[..|lines| - 1], Normalized(lines[|lines| - 1]);
      HaltsExact(before);
      LineHalts(last);
      HaltConcat(Statements(before).value, Compiles(last).value);
      HaltsInLast(lines);
    }
  }

  lemma {:induction false} JointAssoc<T>(a: Option<seq<T>>, b: Option<seq<T>>, c: Option<seq<T>>)
    ensures Joint(Joint(a, b), c) == Joint(a, Joint(b, c))
  {
    if a != None && b != None && c != None {
      ConcatAssoc(a.value, b.value, c.value);
    }
  }

  lemma {:induction false} StatementsConcat(a: seq<string>, b: seq<string>)
    ensures Statements(a + b) == Joint(Statements(a), Statements(b))
    decreases |b|
  {
    if |b| == 0 {
      assert a + b == a;
      assert Statements(a) != None ==> Statements(a).value + [] == Statements(a).value;
    } else {
      var front, last := b[..|b| - 1], Compiles(Normalized(b[|b| - 1]));
      assert (a + b)[..|a + b| - 1] == a + front;
      StatementsConcat(a, front);
      JointAssoc(Statements(a), Statements(front), last);
    }
  }

  lemma {:induction false} MeaningConcat(a: seq<Stmt>, b: seq<Stmt>)
    ensures Meaning(a + b) == if HasHalt(a) then Meaning(a) else Meaning(a) + Meaning(b)
    decreases |a|
  {
    if |a| == 0 {
      assert a + b == b;
    } else {
      assert (a + b)[1..] == a[1..] + b;
      assert a == [a[0]] + a[1..];
      HaltConcat([a[0]], a[1..]);
      if !a[0].Halt? {
        MeaningConcat(a[1..], b);
        ConcatAssoc(OutputOf(a[0]), Meaning(a[1..]), Meaning(b));
      }
    }
  }

  lemma {:induction false} PrintsMeaning(lines: seq<string>)
    requires Accepted(lines)
    ensures Prints(lines) == BytesOf(Meaning(Statements(lines).value))
  {
    CompiledRuns(Statements(lines).value);
  }

  lemma {:induction false} AcceptedConcat(a: seq<string>, b: seq<string>)
    requires Accepted(a) && Accepted(b)
    ensures Accepted(a + b) && Statements(a + b).value == Statements(a).value + Statements(b).value
  {
    StatementsConcat(a, b);
  }

  /** Two sources one behind the other print what both print, unless the first one halts: then what it prints. */
  lemma {:induction false} PrintsConcat(a: seq<string>, b: seq<string>)
    requires Accepted(a) && Accepted(b)
    ensures Accepted(a + b) && Prints(a + b) == if HaltsIn(a) then Prints(a) else Prints(a) + Prints(b)
  {
    var s, t := Statements(a).value, Statements(b).value;
    AcceptedConcat(a, b);
    MeaningConcat(s, t);
    HaltsExact(a);
    BytesOfConcat(Meaning(s), Meaning(t));
    PrintsMeaning(a);
    PrintsMeaning(b);
    PrintsMeaning(a + b);
  }

  lemma {:induction false} OneStatement(line: string, s: Stmt)
    requires Compiles(Normalized(line)) == Some([s]) && (s.Say? ==> |s.text| < TWO32)
    ensures Accepted([line]) && Prints([line]) == BytesOf(OutputOf(s))
  {
    assert [line][..0] == [];
    assert [] + [s] == [s];
    assert Statements([line]) == Some([s]);
    PrintsMeaning([line]);
    assert [s][1..] == [];
    assert OutputOf(s) + "" == OutputOf(s);
  }

  /** The size of a file: the magic number, the statements, and one byte for a halt only if there is none. */
  lemma {:induction false} SizeExact(stmts: seq<Stmt>)
    ensures |Compiled(stmts)| == 4 + Sizes(stmts) + if Halt in stmts then 0 else 1
  {
    CompiledEnd(stmts);
    FrontSize(stmts);
  }

  function Sizes(stmts: seq<Stmt>): nat {
    if |stmts| == 0 then 0
    else
      var last := stmts[|stmts| - 1];
      Sizes(stmts[..|stmts| - 1])
      + if last.Say? then 5 + |last.text| else if last.Halt? then 1 else if last.Unread? then 0 else 4
  }

  lemma {:induction false} FrontSize(stmts: seq<Stmt>)
    ensures |Flatten(Front(stmts))| == 4 + Sizes(stmts)
    decreases |stmts|
  {
    if |stmts| == 0 {
      assert Front(stmts) == [MAGIC];
      FlattenOne(MAGIC);
    } else {
      var front, last := stmts[..|stmts| - 1], stmts[|stmts| - 1];
      assert stmts == front + [last];
      FrontSize(front);
      FrontStep(front, last);
      CodeSize(last);
    }
  }

  /** Whatever stands behind a halt line is not printed. */
  lemma {:induction false} HaltEnds(a: seq<string>, halt: string, b: seq<string>)
    requires Accepted(a) && Accepted(b) && FirstWord(Normalized(halt)) == "halt"
    ensures Accepted(a + [halt] + b) && Prints(a + [halt] + b) == Prints(a)
  {
    HaltAlone(halt);
    PrintsConcat(a, [halt]);
    PrintsConcat(a + [halt], b);
    assert HaltsAt(a + [halt], |a|);
    assert Prints(a) + [] == Prints(a);
  }

  lemma {:induction false} HaltAlone(halt: string)
    requires FirstWord(Normalized(halt)) == "halt"
    ensures Accepted([halt]) && Prints([halt]) == []
  {
    HaltExact(Normalized(halt));
    OneStatement(halt, Halt);
    assert BytesOf("") == [];
  }

  /** A say line prints its text and a line feed. */
  lemma {:induction false} SayLinePrints(before: string, s: string, after: string, comment: string)
    requires AllBlank(before, SPACE) && AllBlank(after, SPACE) && (comment == "" || Starts(comment, "//"))
    requires |s| < TWO32
    ensures var line := before + SayLine(s) + after + comment;
      Accepted([line]) && Prints([line]) == BytesOf(s + "\n")
  {
    SayLineCompiles(before, s, after, comment);
    OneStatement(before + SayLine(s) + after + comment, Say(s));
  }

  function SignalOutput(pulse: bool, name: string): string {
    (if pulse then "[pulse] " else "[emit] ") + name + "\n"
  }

  /** A pulse or emit line prints the name of its signal. */
  lemma {:induction false} SignalLinePrints(before: string, pulse: bool, s: Signal, semicolon: bool, after: string,
          comment: string)
    requires AllBlank(before, SPACE) && AllBlank(after, SPACE) && (comment == "" || Starts(comment, "//"))
    ensures var line := before + SignalLine(pulse, " ", Token(s), if semicolon then ";" else "") + after + comment;
      Accepted([line]) && Prints([line]) == BytesOf(SignalOutput(pulse, Name(s)))
  {
    SignalLineRead(before, pulse, s, semicolon, after, comment);
    SignalExact(Token(s));
    OneStatement(before + SignalLine(pulse, " ", Token(s), if semicolon then ";" else "") + after + comment,
                 SignalStatement(pulse, Token(s)).value);
  }

  /** An MMIO line prints what was stored if it stores to the port of pulses or emits, and nothing otherwise. */
  lemma {:induction false} StoreLinePrints(before: string, address: byte, value: byte, after: string, comment: string)
    requires AllBlank(before, SPACE) && AllBlank(after, SPACE) && (comment == "" || Starts(comment, "//"))
    ensures var line := before + StoreLine(address, value) + after + comment;
      && Accepted([line])
      && Prints([line])
         == if address == 0x10 || address == 0x11 then BytesOf(SignalOutput(address == 0x10, SignalName(value))) else []
  {
    StoreLineCompiles(before, address, value, after, comment);
    OneStatement(before + StoreLine(address, value) + after + comment,
                 Mmio(address, value, StoreLine(address, value)));
    assert BytesOf("") == [];
  }

  // Errors.

  /** A say line without quotes, or with one that does not close, is an error to both front ends. */
  lemma {:induction false} OpenSayFails(words: string, s: string)
    requires '"' !in words
    ensures Read("say " + words) == Malformed && Read("say " + words + "\"" + Body(s)) == Malformed
  {
    var before := "say " + words;
    OpenNotRead(before, s);
    assert before == "say" + (" " + words);
    assert before + "\"" + Body(s) == "say" + (" " + words + "\"" + Body(s));
    LettersRead("say", " " + words);
    LettersRead("say", " " + words + "\"" + Body(s));
    SayRead(before);
    SayRead(before + "\"" + Body(s));
  }

  lemma {:induction false} SayRead(line: string)
    requires FirstWord(line) == "say"
    ensures Read(line) == ReadingOf(ReadSay(line))
  {
    assert FirstWord(line)[0] == line[0];
  }

  /** An MMIO line without an equals sign, or with no number on one side of it, is ignored by the bytecode compiler. */
  lemma {:induction false} NoStore(address: string, value: string)
    requires '=' !in address
    ensures Compiles("@" + address) == Some([Unread("@" + address)])
    ensures Stoul(Trim(address, SPACE)) == None || Stoul(ValueText(value)) == None ==>
      var line := "@" + address + "=" + value; Compiles(line) == Some([Unread(line)])
  {
    var line := "@" + address + "=" + value;
    NoEquals("@" + address, "");
    NoEquals("@" + address, "=" + value);
    assert "@" + address + "" == "@" + address;
    assert "@" + address + ("=" + value) == line;
    assert line[1..|address| + 1] == address && line[|address| + 2..] == value;
    MemoryRead("@" + address);
    MemoryRead(line);
  }

  lemma {:induction false} NoEquals(front: string, rest: string)
    requires '=' !in front && (rest == "" || rest[0] == '=')
    ensures Find(front + rest, "=", 0) == if rest == "" then -1 else |front|
  {
    var line := front + rest;
    forall j | 0 <= j < |front| ensures !Strings.At(line, "=", j) {
      assert line[j..j + 1][0] == line[j] == front[j];
    }
    if rest != "" {
      assert line[|front|..|front| + 1] == "=";
      FindIs(line, "=", |front|);
    }
  }
}
