/**
 * The `.eml` ingestion of App.js `handleFileChange`: the file-name check, the
 * header/body split at the first blank line, and the `From:` / `Subject:`
 * header scan.
 */
module EmlParser {
  import opened Options
  import opened JsString
  import opened RegexSplit

  /**
   * `name.toLowerCase().endsWith('.eml')`: a file is accepted exactly when its
   * name ends in `.eml` in any mix of letter cases.
   */
  function IsEmlName(name: string): (accepted: bool)
    ensures accepted <==>
      && |name| >= 4
      && name[|name| - 4] == '.'
      && (name[|name| - 3] == 'e' || name[|name| - 3] == 'E')
      && (name[|name| - 2] == 'm' || name[|name| - 2] == 'M')
      && (name[|name| - 1] == 'l' || name[|name| - 1] == 'L')
  {
    EmlSuffixCases(name);
    EndsWith(Lower(name), ".eml")
  }

  lemma EmlSuffixCases(name: string)
    ensures EndsWith(Lower(name), ".eml") <==>
      && |name| >= 4
      && name[|name| - 4] == '.'
      && (name[|name| - 3] == 'e' || name[|name| - 3] == 'E')
      && (name[|name| - 2] == 'm' || name[|name| - 2] == 'M')
      && (name[|name| - 1] == 'l' || name[|name| - 1] == 'L')
  {
    var low := Lower(name);
    if |name| >= 4 {
      var n := |name|;
      assert low[n - 4..] == [low[n - 4], low[n - 3], low[n - 2], low[n - 1]];
      assert ".eml" == ['.', 'e', 'm', 'l'];
    }
  }

  /** The message text cut at its first blank line; the body is already trimmed. */
  datatype Message = Message(headers: string, body: string)

  /**
   * `text.split(/\r?\n\r?\n/)`: part 0 is the header block, the other parts
   * joined with `"\n\n"` and trimmed are the body. The header block is the
   * text before the leftmost separator and holds no separator itself.
   */
  function SplitMessage(text: string): (m: Message)
    ensures |m.headers| <= |text| && text[..|m.headers|] == m.headers
    ensures forall j :: 0 <= j < |m.headers| ==> MatchLen(BlankLine, text[j..]) == 0
    ensures NoMatch(BlankLine, m.headers)
  {
    var parts := Split(BlankLine, text);
    FirstPartIsLeftmost(BlankLine, text);
    FirstPartHasNoMatch(BlankLine, text);
    Message(parts[0], Trim(Join(parts[1..], "\n\n")))
  }

  /** Text without a blank line is all header block, and the body is empty. */
  lemma SplitMessageWithoutSeparator(text: string)
    requires NoMatch(BlankLine, text)
    ensures SplitMessage(text) == Message(text, "")
  {
    SinglePartIffNoMatch(BlankLine, text);
  }

  /**
   * With a blank line, a separator follows the header block, and the body is
   * the trimmed text after it with every later separator spelled `"\n\n"`.
   */
  lemma SplitMessageBody(text: string)
    requires !NoMatch(BlankLine, text)
    ensures var m := SplitMessage(text);
      var i := |m.headers|;
      var n := MatchLen(BlankLine, text[i..]);
      && n > 0
      && i + n <= |text|
      && m.body == Trim(Normalize(BlankLine, text[i + n..]))
  {
    SinglePartIffNoMatch(BlankLine, text);
    var parts := Split(BlankLine, text);
    var i := |parts[0]|;
    SplitRest(text, i, MatchLen(BlankLine, text[i..]));
  }

  /** Past the header block, the remaining parts re-joined are the normalised text after the first separator. */
  lemma SplitRest(text: string, i: nat, n: nat)
    requires |Split(BlankLine, text)| > 1
    requires i == |Split(BlankLine, text)[0]| && n == MatchLen(BlankLine, text[i..])
    ensures i + n <= |text|
    ensures Join(Split(BlankLine, text)[1..], "\n\n") == Normalize(BlankLine, text[i + n..])
  {
    SplitTail(BlankLine, text, i, n);
    JoinSplitNormalizes(BlankLine, text[i + n..]);
  }

  /** What one header line contributes to the scan. */
  datatype HeaderLine = FromLine(value: string) | SubjectLine(value: string) | OtherLine

  /**
   * One step of the `headerLines.forEach`: the line is trimmed, matched
   * case-insensitively for `from:` and then `subject:`, and the rest after
   * the key is trimmed.
   */
  function ClassifyLine(line: string): (h: HeaderLine)
    ensures !h.OtherLine? ==> h.value == [] || (!IsSpace(h.value[0]) && !IsSpace(h.value[|h.value| - 1]))
  {
    var l := Trim(line);
    if StartsWith(Lower(l), "from:") then FromLine(Trim(l[5..]))
    else if StartsWith(Lower(l), "subject:") then SubjectLine(Trim(l[8..]))
    else OtherLine
  }

  /**
   * A line is a sender line exactly when, trimmed, it begins with `from:` in
   * any letter case; it is a subject line exactly when it is not a sender line
   * and begins with `subject:` in any letter case. The value is the trimmed
   * rest after the key.
   */
  lemma ClassifyLineCases(line: string)
    ensures var l := Trim(line);
      var h := ClassifyLine(line);
      && (h.FromLine? <==> HasKey(l, "from:"))
      && (h.SubjectLine? <==> !HasKey(l, "from:") && HasKey(l, "subject:"))
      && (h.FromLine? ==> h.value == Trim(l[5..]))
      && (h.SubjectLine? ==> h.value == Trim(l[8..]))
  {
    var l := Trim(line);
    assert "from:" == ['f', 'r', 'o', 'm', ':'];
    assert "subject:" == ['s', 'u', 'b', 'j', 'e', 'c', 't', ':'];
    StartsWithLower(l, "from:");
    StartsWithLower(l, "subject:");
  }

  /**
   * Trailing whitespace, such as the `\r` a CRLF file leaves when lines are
   * split on a bare `\n`, does not change how a line is read.
   */
  lemma ClassifyLineTrailingSpace(line: string, c: char)
    requires IsSpace(c)
    ensures ClassifyLine(line + [c]) == ClassifyLine(line)
  {
    TrimAppendSpace(line, c);
  }

  /** The two fields the scan extracts. */
  datatype Fields = Fields(from: string, subject: string)

  datatype Key = FromKey | SubjectKey

  /** The value a header line gives for `key`, if it carries that key. */
  function ValueFor(key: Key, h: HeaderLine): Option<string> {
    match (key, h)
    case (FromKey, FromLine(v)) => Some(v)
    case (SubjectKey, SubjectLine(v)) => Some(v)
    case _ => None
  }

  function FieldFor(key: Key, f: Fields): string {
    match key
    case FromKey => f.from
    case SubjectKey => f.subject
  }

  /**
   * The loop body: a line changes at most the one field its key names, to its
   * value, and a line that carries neither key changes nothing.
   */
  function ScanStep(acc: Fields, line: string): (r: Fields)
    ensures r.from == acc.from || r.subject == acc.subject
    ensures forall key: Key :: ValueFor(key, ClassifyLine(line)).Some? ==>
      FieldFor(key, r) == ValueFor(key, ClassifyLine(line)).value
    ensures forall key: Key :: ValueFor(key, ClassifyLine(line)).None? ==>
      FieldFor(key, r) == FieldFor(key, acc)
  {
    match ClassifyLine(line)
    case FromLine(v) => acc.(from := v)
    case SubjectLine(v) => acc.(subject := v)
    case OtherLine => acc
  }

  /**
   * The `forEach` over the lines, front to back, starting from `acc`. Lines
   * that carry neither key leave `acc` as it was.
   */
  function ScanFrom(acc: Fields, lines: seq<string>): (r: Fields)
    ensures (forall k :: 0 <= k < |lines| ==> ClassifyLine(lines[k]).OtherLine?) ==> r == acc
    decreases |lines|
  {
    if |lines| == 0 then acc else ScanFrom(ScanStep(acc, lines[0]), lines[1..])
  }

  /**
   * Reference definition, searching from the back: the value of the last line
   * carrying `key`, or `default` when none does.
   */
  function LastValue(key: Key, lines: seq<string>, default: string): string
    decreases |lines|
  {
    if |lines| == 0 then default
    else
      match ValueFor(key, ClassifyLine(lines[|lines| - 1]))
      case Some(v) => v
      case None => LastValue(key, lines[..|lines| - 1], default)
  }

  /**
   * The header scan as App.js runs it: both fields start as `''`, and each
   * ends as the value of the LAST line carrying its key, or `''` when none does.
   */
  function Scan(lines: seq<string>): (r: Fields)
    ensures r.from == LastValue(FromKey, lines, "")
    ensures r.subject == LastValue(SubjectKey, lines, "")
  {
    ScanIsLastValue(FromKey, Fields("", ""), lines);
    ScanIsLastValue(SubjectKey, Fields("", ""), lines);
    ScanFrom(Fields("", ""), lines)
  }

  /** Running the loop over one more line is one more step. */
  lemma {:induction false} ScanSnoc(acc: Fields, lines: seq<string>, line: string)
    ensures ScanFrom(acc, lines + [line]) == ScanStep(ScanFrom(acc, lines), line)
    decreases |lines|
  {
    if |lines| == 0 {
      assert [line][1..] == [];
    } else {
      assert (lines + [line])[1..] == lines[1..] + [line];
      ScanSnoc(ScanStep(acc, lines[0]), lines[1..], line);
    }
  }

  /** The forward scan yields, for `key`, the value of the last line carrying it. */
  lemma {:induction false} ScanIsLastValue(key: Key, acc: Fields, lines: seq<string>)
    ensures FieldFor(key, ScanFrom(acc, lines)) == LastValue(key, lines, FieldFor(key, acc))
    decreases |lines|
  {
    if |lines| > 0 {
      var init, last := lines[..|lines| - 1], lines[|lines| - 1];
      assert lines == init + [last];
      ScanSnoc(acc, init, last);
      ScanIsLastValue(key, acc, init);
    }
  }

  /** A field no line carries keeps its starting value; for `Scan` that is `""`. */
  lemma {:induction false} LastValueAbsent(key: Key, lines: seq<string>, default: string)
    requires forall k :: 0 <= k < |lines| ==> ValueFor(key, ClassifyLine(lines[k])).None?
    ensures LastValue(key, lines, default) == default
    decreases |lines|
  {
    if |lines| > 0 {
      LastValueAbsent(key, lines[..|lines| - 1], default);
    }
  }

  /** A later `From:` line overrides every earlier one; the subject is untouched. */
  lemma ScanLaterFromWins(lines: seq<string>, line: string, v: string)
    requires ClassifyLine(line) == FromLine(v)
    ensures Scan(lines + [line]) == Scan(lines).(from := v)
  {
    ScanSnoc(Fields("", ""), lines, line);
  }

  /** A later `Subject:` line overrides every earlier one; the sender is untouched. */
  lemma ScanLaterSubjectWins(lines: seq<string>, line: string, v: string)
    requires ClassifyLine(line) == SubjectLine(v)
    ensures Scan(lines + [line]) == Scan(lines).(subject := v)
  {
    ScanSnoc(Fields("", ""), lines, line);
  }

  /** A line that is neither `From:` nor `Subject:` has no effect. */
  lemma ScanIgnoresOther(lines: seq<string>, line: string)
    requires ClassifyLine(line) == OtherLine
    ensures Scan(lines + [line]) == Scan(lines)
  {
    ScanSnoc(Fields("", ""), lines, line);
  }

  /** What one reading of a message file yields. */
  datatype Extraction = Extraction(headers: string, body: string, from: string, subject: string)

  /** The whole `reader.onload` parse: split, then scan the header block's lines. */
  function Extract(text: string): (x: Extraction)
    ensures x.headers == SplitMessage(text).headers && x.body == SplitMessage(text).body
    ensures NoMatch(BlankLine, x.headers)
    ensures var lines := Split(LineBreak, x.headers);
      && x.from == LastValue(FromKey, lines, "")
      && x.subject == LastValue(SubjectKey, lines, "")
  {
    var m := SplitMessage(text);
    var lines := Split(LineBreak, m.headers);
    var f := Scan(lines);
    Extraction(m.headers, m.body, f.from, f.subject)
  }
}
