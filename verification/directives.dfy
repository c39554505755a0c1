/**
  User interface directives: how a line falls into bare words and quoted texts.
 */
module Directives {
  import opened Strings
  import opened Text
  import opened Wrappers

  // Tokens.

  /** The escapes that a token reader knows. */
  function TokenEscape(c: char): string {
    if c == '0' then "\\0" else EscapeOf(c)
  }

  /** The tokens of the rest of a line, and whether its quotes close. */
  function Tokens(rest: string, tokens: seq<string>, current: string, inString: bool, escaped: bool)
    : (seq<string>, bool)
    decreases |rest|
  {
    if |rest| == 0 then (if current == "" then tokens else tokens + [current], !inString)
    else if inString then
      if escaped then Tokens(rest[1..], tokens, current + TokenEscape(rest[0]), true, false)
      else if rest[0] == '\\' then Tokens(rest[1..], tokens, current, true, true)
      else if rest[0] == '"' then Tokens(rest[1..], tokens + [current], "", false, escaped)
      else Tokens(rest[1..], tokens, current + [rest[0]], true, escaped)
    else if rest[0] == '"' then Tokens(rest[1..], tokens, current, true, escaped)
    else if rest[0] == ';' || rest[0] in SPACE then
      Tokens(rest[1..], if current == "" then tokens else tokens + [current], "", false, escaped)
    else if rest[0] == '/' && |rest| > 1 && rest[1] == '/' then
      (if current == "" then tokens else tokens + [current], true)
    else Tokens(rest[1..], tokens, current + [rest[0]], false, escaped)
  }

  method AppendTokenEscape(before: string, c: char) returns (current: string)
    ensures current == before + TokenEscape(c)
  {
    current := before;
    match c {
      case 'n' => current := current + "\n";
      case 'r' => current := current + "\r";
      case 't' => current := current + "\t";
      case '"' => current := current + "\"";
      case '\\' => current := current + "\\";
      case _ =>
        current := current + "\\";
        current := current + [c];
    }
  }

  method TokenizeUiDirective(line: string) returns (tokens: seq<string>, ok: bool)
    ensures (tokens, ok) == Tokens(line, [], "", false, false)
  {
    tokens := [];
    var current, inString, escaped := "", false, false;
    assert line[0..] == line;
    var i := 0;
    while i < |line|
      invariant i <= |line|
      invariant Tokens(line[i..], tokens, current, inString, escaped) == Tokens(line, [], "", false, false)
    {
      var c := line[i];
      assert line[i..][1..] == line[i + 1..];
      if inString {
        if escaped {
          current := AppendTokenEscape(current, c);
          escaped := false;
        } else if c == '\\' {
          escaped := true;
        } else if c == '"' {
          tokens := tokens + [current];
          current := "";
          inString := false;
        } else {
          current := current + [c];
        }
      } else if c == '"' {
        inString := true;
      } else if c == ';' || c in SPACE {
        if current != "" {
          tokens := tokens + [current];
          current := "";
        }
      } else if c == '/' && i + 1 < |line| && line[i + 1] == '/' {
        break;
      } else {
        current := current + [c];
      }
      i := i + 1;
    }
    ok := !inString;
    if current != "" {
      tokens := tokens + [current];
    }
  }

  // Quoted texts.

  lemma {:induction false} TokenChar(c: char, rest: string, tokens: seq<string>, current: string)
    ensures Tokens(QuoteChar(c) + rest, tokens, current, true, false)
         == Tokens(rest, tokens, current + [c], true, false)
  {
    var q := QuoteChar(c);
    var line := q + rest;
    if |q| == 2 {
      assert line[1..] == [q[1]] + rest && line[1..][1..] == rest;
      assert TokenEscape(q[1]) == [c];
    } else {
      assert line[1..] == rest;
    }
  }

  lemma {:induction false} TokenBody(s: string, rest: string, tokens: seq<string>, current: string)
    ensures Tokens(Body(s) + "\"" + rest, tokens, current, true, false)
         == Tokens(rest, tokens + [current + s], "", false, false)
    decreases |s|
  {
    if |s| == 0 {
      assert Body(s) + "\"" + rest == "\"" + rest;
      assert ("\"" + rest)[1..] == rest;
      assert current + s == current;
    } else {
      var tail := Body(s[1..]) + "\"" + rest;
      assert Body(s) + "\"" + rest == QuoteChar(s[0]) + tail;
      TokenChar(s[0], tail, tokens, current);
      TokenBody(s[1..], rest, tokens, current + [s[0]]);
      assert current + [s[0]] + s[1..] == current + s;
    }
  }

  lemma {:induction false} TokenQuoted(s: string, rest: string, tokens: seq<string>)
    ensures Tokens(Quoted(s) + rest, tokens, "", false, false) == Tokens(rest, tokens + [s], "", false, false)
  {
    var tail := Body(s) + "\"" + rest;
    assert Quoted(s) + rest == "\"" + tail;
    assert ("\"" + tail)[1..] == tail;
    TokenBody(s, rest, tokens, "");
    assert "" + s == s;
  }

  /** Quoted texts with a blank before each. */
  function QuotedAll(ss: seq<string>): string {
    if |ss| == 0 then "" else " " + Quoted(ss[0]) + QuotedAll(ss[1..])
  }

  lemma {:induction false} TokensOfQuoted(ss: seq<string>, tokens: seq<string>)
    ensures Tokens(QuotedAll(ss), tokens, "", false, false) == (tokens + ss, true)
    decreases |ss|
  {
    if |ss| == 0 {
      assert tokens + ss == tokens;
    } else {
      var rest := QuotedAll(ss[1..]);
      var line := " " + (Quoted(ss[0]) + rest);
      assert QuotedAll(ss) == line;
      assert line[1..] == Quoted(ss[0]) + rest;
      TokenQuoted(ss[0], rest, tokens);
      TokensOfQuoted(ss[1..], tokens + [ss[0]]);
      assert tokens + [ss[0]] + ss[1..] == tokens + ss;
    }
  }

  /** A quoted text alone is a single token. */
  lemma {:induction false} TokenOfQuoted(s: string)
    ensures Tokens(Quoted(s), [], "", false, false) == ([s], true)
  {
    TokenQuoted(s, "", []);
    assert Quoted(s) + "" == Quoted(s);
    assert [] + [s] == [s];
  }

  // Bare words and quoted texts.

  datatype Word = Bare(text: string) | InQuotes(text: string)

  /** A word and what separates it from the one before. */
  datatype Spaced = Spaced(gap: string, word: Word)

  predicate Separator(c: char) {
    c == ';' || c in SPACE
  }

  predicate Separators(s: string) {
    forall i :: 0 <= i < |s| ==> Separator(s[i])
  }

  /** Neither separators nor quotes, and no comment mark. */
  predicate Unbroken(s: string) {
    forall i :: 0 <= i < |s| ==> !Separator(s[i]) && s[i] != '"' && !CommentAt(s, i)
  }

  predicate GoodWord(w: Word) {
    w.Bare? ==> w.text != "" && Unbroken(w.text)
  }

  function Spelling(w: Word): string {
    if w.Bare? then w.text else Quoted(w.text)
  }

  function WordsLine(ws: seq<Spaced>): string {
    if |ws| == 0 then "" else ws[0].gap + Spelling(ws[0].word) + WordsLine(ws[1..])
  }

  function Texts(ws: seq<Spaced>): seq<string> {
    if |ws| == 0 then [] else [ws[0].word.text] + Texts(ws[1..])
  }

  /** Good words, each behind separators, of which only the first may have none. */
  predicate WellSpaced(ws: seq<Spaced>) {
    && (forall k :: 0 <= k < |ws| ==> Separators(ws[k].gap) && GoodWord(ws[k].word))
    && (forall k :: 1 <= k < |ws| ==> ws[k].gap != "")
  }

  predicate EndsInSlash(w: Word) {
    w.Bare? && |w.text| > 0 && w.text[|w.text| - 1] == '/'
  }

  /** What can follow a word. */
  predicate Follows(rest: string) {
    rest == "" || Separator(rest[0]) || CommentAt(rest, 0)
  }

  lemma {:induction false} SkipSeparators(gap: string, rest: string, tokens: seq<string>)
    requires Separators(gap)
    ensures Tokens(gap + rest, tokens, "", false, false) == Tokens(rest, tokens, "", false, false)
    decreases |gap|
  {
    if |gap| == 0 {
      assert gap + rest == rest;
    } else {
      assert (gap + rest)[1..] == gap[1..] + rest;
      SkipSeparators(gap[1..], rest, tokens);
    }
  }

  lemma {:induction false} CollectBare(s: string, rest: string, tokens: seq<string>, current: string)
    requires Unbroken(s)
    requires |s| > 0 && s[|s| - 1] == '/' ==> rest == "" || rest[0] != '/'
    ensures Tokens(s + rest, tokens, current, false, false) == Tokens(rest, tokens, current + s, false, false)
    decreases |s|
  {
    if |s| == 0 {
      assert s + rest == rest && current + s == current;
    } else {
      var line := s + rest;
      assert line[1..] == s[1..] + rest;
      assert !CommentAt(line, 0) by {
        assert !CommentAt(s, 0);
      }
      forall i | 0 <= i < |s[1..]| ensures !CommentAt(s[1..], i) {
        assert !CommentAt(s, i + 1);
      }
      CollectBare(s[1..], rest, tokens, current + [s[0]]);
      assert current + [s[0]] + s[1..] == current + s;
    }
  }

  /** The word is complete when something follows that ends it. */
  lemma {:induction false} WordEnds(rest: string, tokens: seq<string>, word: string)
    requires word != "" && Follows(rest)
    ensures Tokens(rest, tokens, word, false, false) == Tokens(rest, tokens + [word], "", false, false)
  {
  }

  lemma {:induction false} TokenOfWord(w: Word, rest: string, tokens: seq<string>)
    requires GoodWord(w) && Follows(rest) && (EndsInSlash(w) ==> rest == "" || rest[0] != '/')
    ensures Tokens(Spelling(w) + rest, tokens, "", false, false) == Tokens(rest, tokens + [w.text], "", false, false)
  {
    if w.Bare? {
      CollectBare(w.text, rest, tokens, "");
      assert "" + w.text == w.text;
      WordEnds(rest, tokens, w.text);
    } else {
      TokenQuoted(w.text, rest, tokens);
    }
  }

  /** Nothing more is read from the end of the line. */
  ghost predicate NoMore(end: string) {
    forall tokens :: Tokens(end, tokens, "", false, false) == (tokens, true)
  }

  /** A slash at the end of the last word does not meet another one. */
  predicate NoSlashes(ws: seq<Spaced>, end: string) {
    |ws| > 0 && EndsInSlash(ws[|ws| - 1].word) ==> end == "" || end[0] != '/'
  }

  lemma {:induction false} FirstWordFirst(ws: seq<Spaced>, end: string)
    requires |ws| > 0
    ensures WordsLine(ws) + end == ws[0].gap + (Spelling(ws[0].word) + (WordsLine(ws[1..]) + end))
  {
  }

  lemma {:induction false} WellSpacedTail(ws: seq<Spaced>, end: string)
    requires |ws| > 0 && WellSpaced(ws) && Follows(end) && NoSlashes(ws, end)
    ensures WellSpaced(ws[1..]) && NoSlashes(ws[1..], end)
    ensures Follows(WordsLine(ws[1..]) + end) && NoSlashes(ws[..1], WordsLine(ws[1..]) + end)
  {
    var tail := ws[1..];
    assert forall k :: 0 <= k < |tail| ==> tail[k] == ws[k + 1];
    if |tail| > 0 {
      FirstWordFirst(tail, end);
      assert (WordsLine(tail) + end)[0] == tail[0].gap[0];
    } else {
      assert WordsLine(tail) + end == end;
    }
  }

  lemma {:induction false} FirstToken(w: Spaced, rest: string, tokens: seq<string>)
    requires Separators(w.gap) && GoodWord(w.word) && Follows(rest) && NoSlashes([w], rest)
    ensures Tokens(w.gap + (Spelling(w.word) + rest), tokens, "", false, false)
         == Tokens(rest, tokens + [w.word.text], "", false, false)
  {
    SkipSeparators(w.gap, Spelling(w.word) + rest, tokens);
    TokenOfWord(w.word, rest, tokens);
  }

  lemma {:induction false} WordsRead(ws: seq<Spaced>, end: string, tokens: seq<string>)
    requires WellSpaced(ws) && Follows(end) && NoSlashes(ws, end) && NoMore(end)
    ensures Tokens(WordsLine(ws) + end, tokens, "", false, false) == (tokens + Texts(ws), true)
    decreases |ws|
  {
    if |ws| == 0 {
      assert WordsLine(ws) + end == end;
      assert tokens + Texts(ws) == tokens;
    } else {
      assert ws[..1] == [ws[0]];
      WellSpacedTail(ws, end);
      FirstWordFirst(ws, end);
      FirstToken(ws[0], WordsLine(ws[1..]) + end, tokens);
      WordsRead(ws[1..], end, tokens + [ws[0].word.text]);
      TextsFirst(ws, tokens);
    }
  }

  lemma {:induction false} TextsFirst(ws: seq<Spaced>, tokens: seq<string>)
    requires |ws| > 0
    ensures tokens + [ws[0].word.text] + Texts(ws[1..]) == tokens + Texts(ws)
  {
  }

  lemma {:induction false} EndRead(gap: string, comment: string)
    requires Separators(gap) && (comment == "" || CommentAt(comment, 0))
    ensures NoMore(gap + comment) && Follows(gap + comment)
  {
    forall tokens ensures Tokens(gap + comment, tokens, "", false, false) == (tokens, true) {
      SkipSeparators(gap, comment, tokens);
    }
    if gap == "" {
      assert gap + comment == comment;
    }
  }

  /** Bare words and quoted texts in any mixture, with separators between them and separators and a comment behind them
      or not, are read as just these words. */
  lemma {:induction false} TokensOfWords(ws: seq<Spaced>, gap: string, comment: string)
    requires WellSpaced(ws) && Separators(gap) && (comment == "" || CommentAt(comment, 0))
    requires NoSlashes(ws, gap + comment)
    ensures Tokens(WordsLine(ws) + (gap + comment), [], "", false, false) == (Texts(ws), true)
  {
    EndRead(gap, comment);
    WordsRead(ws, gap + comment, []);
    assert [] + Texts(ws) == Texts(ws);
  }

  /** A quote that does not close makes the line wrong, and what stands behind it is the last word. */
  lemma {:induction false} TokensOfOpenText(s: string)
    ensures Tokens("\"" + Body(s), [], "", false, false) == (if s == "" then [] else [s], false)
  {
    assert ("\"" + Body(s))[1..] == Body(s);
    OpenBody(s, "");
    assert "" + s == s;
  }

  lemma {:induction false} OpenBody(s: string, current: string)
    ensures Tokens(Body(s), [], current, true, false)
         == (if current + s == "" then [] else [current + s], false)
    decreases |s|
  {
    if |s| == 0 {
      assert current + s == current;
      assert [] + [current] == [current];
    } else {
      TokenChar(s[0], Body(s[1..]), [], current);
      OpenBody(s[1..], current + [s[0]]);
      assert current + [s[0]] + s[1..] == current + s;
    }
  }

  // Two readers of one quoted text.

  /** The scan meets the escape of a zero byte, which only one of the readers knows. */
  predicate MeetsZero(raw: string) {
    if |raw| < 2 then false
    else if raw[0] == '\\' then raw[1] == '0' || MeetsZero(raw[2..])
    else MeetsZero(raw[1..])
  }

  function TokenText(raw: string): string
    requires Closed(raw)
  {
    if |raw| == 0 then ""
    else if raw[0] == '\\' then TokenEscape(raw[1]) + TokenText(raw[2..])
    else [raw[0]] + TokenText(raw[1..])
  }

  lemma {:induction false} ExtractClosed(raw: string, read: string)
    requires Closed(raw)
    ensures Extracted(raw + "\"", true, false, read) == Some(Unescaped(read + raw))
    decreases |raw|
  {
    var line := raw + "\"";
    if |raw| == 0 {
      assert read + raw == read;
    } else if raw[0] == '\\' {
      assert line[1..] == [raw[1]] + (raw[2..] + "\"") && line[1..][1..] == raw[2..] + "\"";
      ExtractClosed(raw[2..], read + [raw[0]] + [raw[1]]);
      assert read + [raw[0]] + [raw[1]] + raw[2..] == read + raw;
    } else {
      assert line[1..] == raw[1..] + "\"";
      ExtractClosed(raw[1..], read + [raw[0]]);
      assert read + [raw[0]] + raw[1..] == read + raw;
    }
  }

  lemma {:induction false} EscapePair(c: char, rest: string, current: string)
    ensures Tokens(['\\', c] + rest, [], current, true, false)
         == Tokens(rest, [], current + TokenEscape(c), true, false)
  {
    var line := ['\\', c] + rest;
    assert line[1..] == [c] + rest && line[1..][1..] == rest;
  }

  lemma {:induction false} TextStep(raw: string, current: string)
    requires Closed(raw) && |raw| > 0
    ensures current + TokenText(raw)
         == if raw[0] == '\\' then current + TokenEscape(raw[1]) + TokenText(raw[2..])
            else current + [raw[0]] + TokenText(raw[1..])
  {
  }

  lemma {:induction false} TokenClosed(raw: string, current: string, text: string)
    requires Closed(raw) && text == current + TokenText(raw)
    ensures Tokens(raw + "\"", [], current, true, false) == ([text], true)
    decreases |raw|
  {
    if |raw| == 0 {
      assert (raw + "\"")[1..] == "";
      assert text == current;
      assert [] + [current] == [text];
    } else {
      TextStep(raw, current);
      if raw[0] == '\\' {
        assert raw + "\"" == ['\\', raw[1]] + (raw[2..] + "\"");
        EscapePair(raw[1], raw[2..] + "\"", current);
        TokenClosed(raw[2..], current + TokenEscape(raw[1]), text);
      } else {
        assert (raw + "\"")[1..] == raw[1..] + "\"";
        TokenClosed(raw[1..], current + [raw[0]], text);
      }
    }
  }

  lemma {:induction false} ZeroLengthens(raw: string)
    requires Closed(raw)
    ensures |TokenText(raw)| >= |Unescaped(raw)|
    ensures if MeetsZero(raw) then |TokenText(raw)| > |Unescaped(raw)| else TokenText(raw) == Unescaped(raw)
    decreases |raw|
  {
    if |raw| > 0 {
      ZeroLengthens(if raw[0] == '\\' then raw[2..] else raw[1..]);
    }
  }

  /** A quoted text is the same to a say line and to a directive if and only if it has no escape of a zero byte. */
  lemma {:induction false} SameTextExact(raw: string)
    requires Closed(raw)
    ensures Extracted("\"" + raw + "\"", false, false, "") == Some(Unescaped(raw))
    ensures Tokens("\"" + raw + "\"", [], "", false, false) == ([Unescaped(raw)], true) <==> !MeetsZero(raw)
  {
    var line := "\"" + raw + "\"";
    assert line[1..] == raw + "\"";
    ExtractClosed(raw, "");
    TokenClosed(raw, "", TokenText(raw));
    ZeroLengthens(raw);
    assert "" + raw == raw;
    assert [TokenText(raw)][0] == TokenText(raw) && [Unescaped(raw)][0] == Unescaped(raw);
  }
}
