/**
 * `String.prototype.split` with the two regular expressions App.js uses:
 * `/\r?\n/` for header lines and `/\r?\n\r?\n/` for the header/body break.
 *
 * JavaScript's split scans left to right for the leftmost match, cuts there,
 * and resumes after the match. Neither pattern matches the empty string, so
 * the scan can be read one character at a time: where a match starts, a part
 * ends; anywhere else the character joins the current part.
 */
module RegexSplit {

  datatype Delimiter =
    | LineBreak   // /\r?\n/
    | BlankLine   // /\r?\n\r?\n/

  /** The spellings the regular expression of `d` accepts. */
  predicate IsSeparator(d: Delimiter, t: string) {
    match d
    case LineBreak => t == "\n" || t == "\r\n"
    case BlankLine => t == "\n\n" || t == "\r\n\n" || t == "\n\r\n" || t == "\r\n\r\n"
  }

  /**
   * Length of the match of `d`'s regular expression at the start of `t`, or 0.
   * The alternatives are listed in the order the regular expression engine
   * tries them: each greedy `\r?` first takes a `\r`, then gives it up.
   */
  function MatchLen(d: Delimiter, t: string): nat {
    match d
    case LineBreak =>
      if |t| >= 2 && t[0] == '\r' && t[1] == '\n' then 2
      else if |t| >= 1 && t[0] == '\n' then 1
      else 0
    case BlankLine =>
      if |t| >= 4 && t[0] == '\r' && t[1] == '\n' && t[2] == '\r' && t[3] == '\n' then 4
      else if |t| >= 3 && t[0] == '\r' && t[1] == '\n' && t[2] == '\n' then 3
      else if |t| >= 3 && t[0] == '\n' && t[1] == '\r' && t[2] == '\n' then 3
      else if |t| >= 2 && t[0] == '\n' && t[1] == '\n' then 2
      else 0
  }

  /** A match spans one separator spelling. */
  lemma MatchIsSeparator(d: Delimiter, t: string)
    requires MatchLen(d, t) > 0
    ensures MatchLen(d, t) <= |t|
    ensures IsSeparator(d, t[..MatchLen(d, t)])
  {
    var n := MatchLen(d, t);
    assert t[..n] == seq(n, i requires 0 <= i < n => t[i]);
  }

  /**
   * Every separator spelling at the start of `t` is matched, with its own
   * length: the regular expression neither misses a separator nor matches a
   * different one.
   */
  lemma SeparatorIsMatch(d: Delimiter, t: string, k: nat)
    requires k <= |t|
    requires IsSeparator(d, t[..k])
    ensures MatchLen(d, t) == k
  {
    var u := t[..k];
    assert t[0] == u[0];
    if k >= 2 {
      assert t[1] == u[1];
    }
    if k >= 3 {
      assert t[2] == u[2];
    }
    if k == 4 {
      assert t[3] == u[3];
    }
  }

  /** Whether `t` holds no match of `d` anywhere. */
  predicate NoMatch(d: Delimiter, t: string) {
    forall j :: 0 <= j < |t| ==> MatchLen(d, t[j..]) == 0
  }

  /** A match inside a prefix of `t` is the same match in `t`. */
  lemma MatchInPrefix(d: Delimiter, t: string, p: string)
    requires |p| <= |t| && t[..|p|] == p
    requires MatchLen(d, p) > 0
    ensures MatchLen(d, t) == MatchLen(d, p)
  {
    assert forall i :: 0 <= i < |p| ==> t[i] == p[i];
  }

  /** `s.split(re)` for the regular expression of `d`. */
  function Split(d: Delimiter, s: string): (parts: seq<string>)
    ensures |parts| >= 1
    ensures |parts[0]| <= |s| && s[..|parts[0]|] == parts[0]
    ensures |parts| == 1 ==> parts[0] == s
    ensures |parts| > 1 ==> MatchLen(d, s[|parts[0]|..]) > 0
    decreases |s|
  {
    if |s| == 0 then [""]
    else
      var n := MatchLen(d, s);
      if n > 0 then
        assert s[0..] == s;
        [""] + Split(d, s[n..])
      else
        var rest := Split(d, s[1..]);
        var head := [s[0]] + rest[0];
        assert s[..|head|] == [s[0]] + s[1..][..|rest[0]|];
        assert s[|head|..] == s[1..][|rest[0]|..];
        assert |rest| == 1 ==> head == [s[0]] + s[1..] == s;
        [head] + rest[1..]
  }

  /** The text before the first match holds no match. */
  lemma {:induction false} FirstPartHasNoMatch(d: Delimiter, s: string)
    ensures NoMatch(d, Split(d, s)[0])
    decreases |s|
  {
    if |s| > 0 && MatchLen(d, s) == 0 {
      var rest := Split(d, s[1..]);
      var head := [s[0]] + rest[0];
      FirstPartHasNoMatch(d, s[1..]);
      forall j | 0 <= j < |head| ensures MatchLen(d, head[j..]) == 0 {
        if j == 0 {
          assert s[..|head|] == head;
          if MatchLen(d, head) > 0 {
            MatchInPrefix(d, s, head);
          }
        } else {
          assert head[j..] == rest[0][j - 1..];
        }
      }
    }
  }

  /** The first part ends at the LEFTMOST match: no match of the text starts inside it. */
  lemma {:induction false} FirstPartIsLeftmost(d: Delimiter, s: string)
    ensures forall j :: 0 <= j < |Split(d, s)[0]| ==> MatchLen(d, s[j..]) == 0
    decreases |s|
  {
    if |s| > 0 && MatchLen(d, s) == 0 {
      FirstPartIsLeftmost(d, s[1..]);
      assert s[0..] == s;
      forall j | 1 <= j < |Split(d, s)[0]| ensures MatchLen(d, s[j..]) == 0 {
        assert s[j..] == s[1..][j - 1..];
      }
    }
  }

  /** Text is free of matches exactly when its head starts none and its tail holds none. */
  lemma NoMatchCons(d: Delimiter, s: string)
    requires |s| > 0
    ensures NoMatch(d, s) <==> MatchLen(d, s) == 0 && NoMatch(d, s[1..])
  {
    assert s[0..] == s;
    assert forall j :: 0 <= j < |s| - 1 ==> s[1..][j..] == s[j + 1..];
    if MatchLen(d, s) == 0 && NoMatch(d, s[1..]) {
      forall j | 0 < j < |s| ensures MatchLen(d, s[j..]) == 0 {
        assert s[j..] == s[1..][j - 1..];
      }
    }
  }

  /** A split has one part exactly when the text holds no match. */
  lemma {:induction false} SinglePartIffNoMatch(d: Delimiter, s: string)
    ensures |Split(d, s)| == 1 <==> NoMatch(d, s)
    decreases |s|
  {
    if |s| > 0 {
      SinglePartIffNoMatch(d, s[1..]);
      NoMatchCons(d, s);
      if MatchLen(d, s) == 0 {
        assert |Split(d, s)| == |Split(d, s[1..])|;
      }
    }
  }

  /** No part of a split holds a match. */
  lemma {:induction false} PartsHaveNoMatch(d: Delimiter, s: string)
    ensures forall k :: 0 <= k < |Split(d, s)| ==> NoMatch(d, Split(d, s)[k])
    decreases |s|
  {
    FirstPartHasNoMatch(d, s);
    var parts := Split(d, s);
    if |parts| > 1 {
      var i := |parts[0]|;
      var m := MatchLen(d, s[i..]);
      SplitTail(d, s, i, m);
      var tail := Split(d, s[i + m..]);
      PartsHaveNoMatch(d, s[i + m..]);
      forall k | 1 <= k < |parts| ensures NoMatch(d, parts[k]) {
        assert parts[k] == tail[k - 1];
      }
    }
  }

  /** Past the first part and the match after it, the remaining parts are the split of the rest. */
  lemma {:induction false} SplitTail(d: Delimiter, s: string, i: nat, m: nat)
    requires |Split(d, s)| > 1
    requires i == |Split(d, s)[0]| && m == MatchLen(d, s[i..])
    ensures i + m <= |s|
    ensures Split(d, s)[1..] == Split(d, s[i + m..])
    decreases |s|
  {
    if MatchLen(d, s) == 0 {
      var t := s[1..];
      var rest := Split(d, t);
      var r := |rest[0]|;
      assert i == 1 + r;
      assert t[r..] == s[i..];
      SplitTail(d, t, r, m);
      assert t[r + m..] == s[i + m..];
    } else {
      assert s[0..] == s;
      MatchIsSeparator(d, s);
    }
  }

  /** `parts.join(sep)`. */
  function Join(parts: seq<string>, sep: string): string
    decreases |parts|
  {
    if |parts| == 0 then ""
    else if |parts| == 1 then parts[0]
    else parts[0] + sep + Join(parts[1..], sep)
  }

  /** The line break App.js re-joins with: `"\n"` for lines, `"\n\n"` for blank lines. */
  function Canonical(d: Delimiter): string {
    match d
    case LineBreak => "\n"
    case BlankLine => "\n\n"
  }

  /**
   * Reference definition: `s` with every match of `d`, leftmost first and
   * not overlapping, replaced by `Canonical(d)`.
   */
  function Normalize(d: Delimiter, s: string): string
    decreases |s|
  {
    if |s| == 0 then ""
    else
      var n := MatchLen(d, s);
      if n > 0 then Canonical(d) + Normalize(d, s[n..])
      else [s[0]] + Normalize(d, s[1..])
  }

  /** Prefixing a character to the first part prefixes it to the joined text. */
  lemma JoinConsChar(c: char, parts: seq<string>, sep: string)
    requires |parts| >= 1
    ensures Join([[c] + parts[0]] + parts[1..], sep) == [c] + Join(parts, sep)
  {
    var q := [[c] + parts[0]] + parts[1..];
    if |parts| > 1 {
      assert q[1..] == parts[1..];
    }
  }

  /**
   * Splitting and re-joining with the canonical break is the same as
   * normalising every separator in place: nothing of the text is lost or
   * reordered, only the separators' spelling changes.
   */
  lemma {:induction false} JoinSplitNormalizes(d: Delimiter, s: string)
    ensures Join(Split(d, s), Canonical(d)) == Normalize(d, s)
    decreases |s|
  {
    if |s| > 0 {
      var n := MatchLen(d, s);
      if n > 0 {
        var p := Split(d, s[n..]);
        JoinSplitNormalizes(d, s[n..]);
        assert ([""] + p)[1..] == p;
      } else {
        JoinSplitNormalizes(d, s[1..]);
        JoinConsChar(s[0], Split(d, s[1..]), Canonical(d));
      }
    }
  }

  /** Text without a match normalises to itself. */
  lemma NormalizeNoMatch(d: Delimiter, s: string)
    requires NoMatch(d, s)
    ensures Normalize(d, s) == s
  {
    SinglePartIffNoMatch(d, s);
    JoinSplitNormalizes(d, s);
  }
}
