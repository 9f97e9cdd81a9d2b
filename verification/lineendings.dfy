/**
 * Line-ending independence of the `.eml` parse: a message saved with CRLF line
 * endings yields the same sender and subject as the same message saved with
 * bare LF endings, because both split patterns of App.js accept an optional
 * `\r` before each `\n`.
 */
module LineEndings {
  import opened JsString
  import opened RegexSplit
  import opened EmlParser

  /** Text holding no carriage return: a file saved with LF line endings. */
  predicate NoCr(t: string) {
    forall i :: 0 <= i < |t| ==> t[i] != '\r'
  }

  /** The same text saved with CRLF line endings: every `\n` becomes `\r\n`. */
  function CrLf(t: string): string
    decreases |t|
  {
    if |t| == 0 then [] else (if t[0] == '\n' then "\r\n" else [t[0]]) + CrLf(t[1..])
  }

  lemma {:induction false} CrLfCons(c: char, u: string)
    ensures CrLf([c] + u) == (if c == '\n' then "\r\n" else [c]) + CrLf(u)
  {
    assert ([c] + u)[1..] == u;
  }

  /** The text before the first match, when the string does not start with one. */
  lemma {:induction false} SplitHeadCons(d: Delimiter, s: string)
    requires |s| > 0 && MatchLen(d, s) == 0
    ensures Split(d, s)[0] == [s[0]] + Split(d, s[1..])[0]
  {
  }

  /**
   * Splitting the CRLF text into lines gives exactly the lines of the LF text:
   * `/\r?\n/` consumes each `\r\n` whole.
   */
  lemma {:induction false} LinesOfCrLf(h: string)
    requires NoCr(h)
    ensures Split(LineBreak, CrLf(h)) == Split(LineBreak, h)
    decreases |h|
  {
    if |h| > 0 {
      var u := h[1..];
      assert h == [h[0]] + u;
      assert NoCr(u);
      CrLfCons(h[0], u);
      LinesOfCrLf(u);
      var t := CrLf(h);
      if h[0] == '\n' {
        assert t[2..] == CrLf(u);
        assert MatchLen(LineBreak, t) == 2;
        assert MatchLen(LineBreak, h) == 1;
      } else {
        assert t[1..] == CrLf(u);
        assert MatchLen(LineBreak, t) == 0;
        assert MatchLen(LineBreak, h) == 0;
      }
    }
  }

  /** A CRLF text never starts with a bare `\n`, and starts with `\r` only before a `\n`. */
  lemma {:induction false} CrLfStart(u: string)
    requires NoCr(u) && |CrLf(u)| > 0
    ensures |u| > 0
    ensures CrLf(u)[0] != '\n'
    ensures CrLf(u)[0] == '\r' <==> u[0] == '\n'
  {
    assert |u| > 0;
    CrLfCons(u[0], u[1..]);
    assert u == [u[0]] + u[1..];
  }

  /**
   * The header block of the CRLF text is the CRLF form of the header block of
   * the LF text: `/\r?\n\r?\n/` finds its first match at the same blank line.
   */
  lemma {:induction false} HeadersOfCrLf(t: string)
    requires NoCr(t)
    ensures Split(BlankLine, CrLf(t))[0] == CrLf(Split(BlankLine, t)[0])
    decreases |t|
  {
    if |t| > 0 {
      var u := t[1..];
      assert t == [t[0]] + u;
      assert NoCr(u);
      if t[0] == '\n' && |u| > 0 && u[0] == '\n' {
        HeadersAtBlankLine(t, u);
      } else {
        HeadersOfCrLf(u);
        if t[0] == '\n' {
          HeadersAtLineBreak(t, u);
        } else {
          HeadersAtOther(t, u);
        }
      }
    }
  }

  /** The LF text starts with `\n\n`: both header blocks are empty. */
  lemma {:induction false} HeadersAtBlankLine(t: string, u: string)
    requires NoCr(t) && |t| > 0 && t == [t[0]] + u && t[0] == '\n' && |u| > 0 && u[0] == '\n'
    ensures Split(BlankLine, CrLf(t))[0] == CrLf(Split(BlankLine, t)[0])
  {
    var c := CrLf(t);
    CrLfCons(t[0], u);
    assert u == [u[0]] + u[1..];
    CrLfCons(u[0], u[1..]);
    assert c[..4] == "\r\n\r\n";
    assert MatchLen(BlankLine, c) == 4;
    assert MatchLen(BlankLine, t) == 2;
  }

  /** The LF text starts with a lone `\n`: the CRLF text starts with a lone `\r\n`. */
  lemma {:induction false} HeadersAtLineBreak(t: string, u: string)
    requires NoCr(t) && NoCr(u) && |t| > 0 && t == [t[0]] + u && t[0] == '\n'
    requires |u| == 0 || u[0] != '\n'
    requires Split(BlankLine, CrLf(u))[0] == CrLf(Split(BlankLine, u)[0])
    ensures Split(BlankLine, CrLf(t))[0] == CrLf(Split(BlankLine, t)[0])
  {
    var r := CrLf(u);
    var h := Split(BlankLine, u)[0];
    CrLfCons(t[0], u);
    CrLfCons('\n', h);
    if |r| > 0 {
      CrLfStart(u);
    }
    HeadPastLineBreak(r);
    assert MatchLen(BlankLine, t) == 0;
    SplitHeadCons(BlankLine, t);
  }

  /** A lone `\r\n` followed by neither `\r` nor `\n` is kept in the header block. */
  lemma {:induction false} HeadPastLineBreak(r: string)
    requires |r| == 0 || (r[0] != '\r' && r[0] != '\n')
    ensures Split(BlankLine, "\r\n" + r)[0] == "\r\n" + Split(BlankLine, r)[0]
  {
    HeadPastCr(r);
    HeadPastLf(r);
  }

  lemma {:induction false} HeadPastCr(r: string)
    requires |r| == 0 || (r[0] != '\r' && r[0] != '\n')
    ensures Split(BlankLine, "\r\n" + r)[0] == ['\r'] + Split(BlankLine, "\n" + r)[0]
  {
    var c := "\r\n" + r;
    assert MatchLen(BlankLine, c) == 0;
    assert c[1..] == "\n" + r;
    SplitHeadCons(BlankLine, c);
  }

  lemma {:induction false} HeadPastLf(r: string)
    requires |r| == 0 || (r[0] != '\r' && r[0] != '\n')
    ensures Split(BlankLine, "\n" + r)[0] == ['\n'] + Split(BlankLine, r)[0]
  {
    var c := "\n" + r;
    assert MatchLen(BlankLine, c) == 0;
    assert c[1..] == r;
    SplitHeadCons(BlankLine, c);
  }

  /** The LF text starts with an ordinary character, which both texts keep. */
  lemma {:induction false} HeadersAtOther(t: string, u: string)
    requires NoCr(t) && |t| > 0 && t == [t[0]] + u && t[0] != '\n'
    requires Split(BlankLine, CrLf(u))[0] == CrLf(Split(BlankLine, u)[0])
    ensures Split(BlankLine, CrLf(t))[0] == CrLf(Split(BlankLine, t)[0])
  {
    var c := CrLf(t);
    var h := Split(BlankLine, u)[0];
    CrLfCons(t[0], u);
    CrLfCons(t[0], h);
    assert c == [t[0]] + CrLf(u);
    assert c[1..] == CrLf(u);
    assert MatchLen(BlankLine, c) == 0;
    SplitHeadCons(BlankLine, c);
    assert MatchLen(BlankLine, t) == 0;
    SplitHeadCons(BlankLine, t);
  }

  /**
   * A message saved with CRLF line endings yields the same sender and subject
   * as the same message saved with LF endings; its header block is the CRLF
   * form of the LF header block.
   */
  lemma {:induction false} ExtractCrLf(text: string)
    requires NoCr(text)
    ensures Extract(CrLf(text)).headers == CrLf(Extract(text).headers)
    ensures Extract(CrLf(text)).from == Extract(text).from
    ensures Extract(CrLf(text)).subject == Extract(text).subject
  {
    var h := Split(BlankLine, text)[0];
    HeadersOfCrLf(text);
    assert text[..|h|] == h;
    assert NoCr(h) by {
      forall i | 0 <= i < |h|
        ensures h[i] != '\r'
      {
        assert h[i] == text[i];
      }
    }
    LinesOfCrLf(h);
  }

  /**
   * The body is not independent of the line-ending style: only separators of
   * paragraphs are rewritten to `\n\n`, so a single line break inside the body
   * keeps its `\r\n`.
   */
  lemma CrLfBodyKeepsLineBreak()
    ensures Extract("\n\na\nb").body == "a\nb"
    ensures CrLf("\n\na\nb") == "\r\n\r\na\r\nb"
    ensures Extract("\r\n\r\na\r\nb").body == "a\r\nb"
  {
    CrLfExample();
    LfBodyExample();
    CrLfBodyExample();
  }

  lemma LfBodyExample()
    ensures Extract("\n\na\nb").body == "a\nb"
  {
    var text, b := "\n\na\nb", "a\nb";
    assert text == "\n\n" + b;
    assert MatchLen(BlankLine, text) == 2;
    assert text[2..] == b;
    assert b[1..] == "\nb" && b[2..] == "b" && b[3..] == "";
    assert NoMatch(BlankLine, b) by {
      forall j | 0 <= j < |b|
        ensures MatchLen(BlankLine, b[j..]) == 0
      {
      }
    }
    assert b[0] == 'a' && b[|b| - 1] == 'b';
    BodyAfterSeparator(text, 2, b);
  }

  lemma CrLfBodyExample()
    ensures Extract("\r\n\r\na\r\nb").body == "a\r\nb"
  {
    var text, b := "\r\n\r\na\r\nb", "a\r\nb";
    assert text == "\r\n\r\n" + b;
    assert MatchLen(BlankLine, text) == 4;
    assert text[4..] == b;
    assert b[1..] == "\r\nb" && b[2..] == "\nb" && b[3..] == "b";
    assert NoMatch(BlankLine, b) by {
      forall j | 0 <= j < |b|
        ensures MatchLen(BlankLine, b[j..]) == 0
      {
      }
    }
    assert b[0] == 'a' && b[|b| - 1] == 'b';
    BodyAfterSeparator(text, 4, b);
  }

  lemma CrLfExample()
    ensures CrLf("\n\na\nb") == "\r\n\r\na\r\nb"
  {
    assert CrLf("") == "";
    CrLfCons('b', "");
    assert "b" == ['b'] + "";
    CrLfCons('\n', "b");
    assert "\nb" == ['\n'] + "b";
    CrLfCons('a', "\nb");
    assert "a\nb" == ['a'] + "\nb";
    CrLfCons('\n', "a\nb");
    assert "\na\nb" == ['\n'] + "a\nb";
    CrLfCons('\n', "\na\nb");
    assert "\n\na\nb" == ['\n'] + "\na\nb";
  }

  /**
   * A message that starts with a separator of length `n` and continues with a
   * body `b` holding no further separator and no surrounding whitespace has
   * body `b`.
   */
  lemma {:induction false} BodyAfterSeparator(text: string, n: nat, b: string)
    requires 0 < n <= |text| && MatchLen(BlankLine, text) == n && text[n..] == b
    requires NoMatch(BlankLine, b)
    requires b == [] || (!IsSpace(b[0]) && !IsSpace(b[|b| - 1]))
    ensures Extract(text).body == b
  {
    assert text[0..] == text;
    SplitMessageBody(text);
    NormalizeNoMatch(BlankLine, b);
    TrimKeepsTrimmed(b);
  }
}
