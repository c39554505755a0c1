/**
  The two front ends read the same say line: when they print the same text. The AOT front end's escapes have no case
  for a backslash or a zero byte, so it gives back what was quoted only if nothing had to be quoted as such.
 */
module FrontEnds {
  import opened Strings
  import opened Wrappers
  import Aot
  import A = FrontEnd
  import T = Text

  /** The scan for escapes meets an escaped backslash or an escaped zero. */
  predicate MeetsOther(raw: string) {
    if |raw| < 2 then false
    else if raw[0] != '\\' then MeetsOther(raw[1..])
    else raw[1] == '\\' || raw[1] == '0' || MeetsOther(raw[2..])
  }

  /** Reading an escape never makes the AOT text the shorter one, and the two differ at the first such escape. */
  lemma {:induction false} EscapesCompared(raw: string)
    ensures |A.Unescape(raw)| >= |T.Unescaped(raw)|
    ensures if MeetsOther(raw) then |A.Unescape(raw)| > |T.Unescaped(raw)| else A.Unescape(raw) == T.Unescaped(raw)
    decreases |raw|
  {
    if |raw| == 1 {
      assert raw[1..] == "";
      assert A.Unescape(raw) == [raw[0]] + "";
    } else if |raw| > 1 {
      if raw[0] == '\\' {
        EscapesCompared(raw[2..]);
      } else {
        EscapesCompared(raw[1..]);
      }
    }
  }

  /** Both front ends unescape alike if and only if no escape of the text is that of a backslash or a zero. */
  lemma {:induction false} SameEscapesExact(raw: string)
    ensures A.Unescape(raw) == T.Unescaped(raw) <==> !MeetsOther(raw)
  {
    EscapesCompared(raw);
  }

  /** Without a backslash there is nothing to unescape. */
  lemma {:induction false} PlainUnchanged(raw: string)
    requires '\\' !in raw
    ensures A.Unescape(raw) == raw && T.Unescaped(raw) == raw
    decreases |raw|
  {
    if |raw| > 0 {
      assert raw[0] in raw;
      PlainUnchanged(raw[1..]);
      assert raw == [raw[0]] + raw[1..];
    }
  }

  lemma {:induction false} BodyMeetsOther(s: string)
    ensures MeetsOther(T.Body(s)) <==> '\\' in s
    decreases |s|
  {
    if |s| > 0 {
      var q, rest := T.QuoteChar(s[0]), T.Body(s[1..]);
      var body := T.Body(s);
      BodyMeetsOther(s[1..]);
      assert s == [s[0]] + s[1..];
      assert body[|q|..] == rest;
      if |body| < 2 {
        assert rest == "";
      }
    }
  }

  /** A text that is quoted survives the AOT front end's unescaping if and only if it has no backslash. */
  lemma {:induction false} QuotedSurvivesExact(s: string)
    ensures A.Unescape(T.Body(s)) == s <==> '\\' !in s
  {
    T.UnescapedBody(s);
    SameEscapesExact(T.Body(s));
    BodyMeetsOther(s);
  }

  /** One say line, as quoted text, to both: the AOT front end prints the text that was quoted, and so the same as the
      other front end, if and only if the text has no backslash and the line no arrow. */
  lemma {:induction false} SamePrintExact(m: A.Statics, s: string)
    requires A.NoSay(m.matchVal)
    ensures T.Extracted(T.SayLine(s), false, false, "") == Some(s)
    ensures A.Handle(m, T.SayLine(s)).1 == [Aot.Print(s + "\n")]
      <==> '\\' !in s && !A.HasArrow(T.SayLine(s))
  {
    var t := A.SayText("", T.Body(s), ";");
    var line := T.SayLine(s);
    assert A.SayLine(t) == line;
    T.ExtractQuoted("say ", s, ";");
    QuotedSurvivesExact(s);
    if A.HasArrow(line) {
      A.SayWithArrowDropped(m, t);
    } else {
      A.SayHandled(m, t);
      assert (A.Unescape(T.Body(s)) + "\n")[..|A.Unescape(T.Body(s))|] == A.Unescape(T.Body(s));
      assert (s + "\n")[..|s|] == s;
    }
  }
}
