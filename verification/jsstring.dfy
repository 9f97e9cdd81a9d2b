/**
 * The JavaScript string primitives App.js relies on, over Dafny's `string`:
 * `trim`, `toLowerCase`, `startsWith`, `endsWith` and the `||` fallback on strings.
 */
module JsString {

  /** A code point `String.prototype.trim` removes: ECMAScript WhiteSpace or LineTerminator. */
  predicate IsSpace(c: char) {
    || c == '\t' || c == '\n' || c == '\U{000B}' || c == '\U{000C}' || c == '\r' || c == ' '
    || c == '\U{00A0}' || c == '\U{1680}' || ('\U{2000}' <= c <= '\U{200A}')
    || c == '\U{2028}' || c == '\U{2029}' || c == '\U{202F}' || c == '\U{205F}'
    || c == '\U{3000}' || c == '\U{FEFF}'
  }

  predicate AllSpace(s: string) {
    forall i :: 0 <= i < |s| ==> IsSpace(s[i])
  }

  /** Length of the whitespace run at the start of `s`. */
  function Leading(s: string): (n: nat)
    ensures n <= |s|
    ensures forall i :: 0 <= i < n ==> IsSpace(s[i])
    ensures n == |s| || !IsSpace(s[n])
    decreases |s|
  {
    if |s| > 0 && IsSpace(s[0]) then 1 + Leading(s[1..]) else 0
  }

  /** Length of the whitespace run at the end of `s`. */
  function Trailing(s: string): (n: nat)
    ensures n <= |s|
    ensures forall i :: |s| - n <= i < |s| ==> IsSpace(s[i])
    ensures n == |s| || !IsSpace(s[|s| - 1 - n])
    decreases |s|
  {
    if |s| > 0 && IsSpace(s[|s| - 1]) then 1 + Trailing(s[..|s| - 1]) else 0
  }

  /**
   * `String.prototype.trim`: the slice of `s` left after removing the
   * whitespace runs at both ends.
   */
  function Trim(s: string): (r: string)
    ensures r == [] || (!IsSpace(r[0]) && !IsSpace(r[|r| - 1]))
    ensures var k := Leading(s);
      && k + |r| <= |s|
      && r == s[k..k + |r|]
      && AllSpace(s[..k])
      && AllSpace(s[k + |r|..])
    ensures r == [] <==> AllSpace(s)
  {
    var a := Leading(s);
    var b := Trailing(s[a..]);
    s[a..|s| - b]
  }

  lemma TrimKeepsTrimmed(s: string)
    requires s == [] || (!IsSpace(s[0]) && !IsSpace(s[|s| - 1]))
    ensures Trim(s) == s
  {
  }

  lemma TrimIdempotent(s: string)
    ensures Trim(Trim(s)) == Trim(s)
  {
    TrimKeepsTrimmed(Trim(s));
  }

  /** A whitespace character appended to `s` does not change `s.trim()`. */
  lemma {:induction false} TrimAppendSpace(s: string, c: char)
    requires IsSpace(c)
    ensures Trim(s + [c]) == Trim(s)
  {
    LeadingAppendSpace(s, c);
    var a := Leading(s);
    if a < |s| {
      TrimAppendSpaceAt(s, c, a);
    } else {
      assert Trim(s) == [];
    }
  }

  lemma {:induction false} TrimAppendSpaceAt(s: string, c: char, a: nat)
    requires IsSpace(c) && a == Leading(s) && a < |s| && Leading(s + [c]) == a
    ensures Trim(s + [c]) == Trim(s)
  {
    var b := Trailing(s[a..]);
    TrailingOfAppendSlice(s, c, a);
    TrimAt(s + [c], a, 1 + b);
    TrimAt(s, a, b);
    SliceOfAppend(s, c, a, |s| - b);
  }

  lemma {:induction false} TrailingOfAppendSlice(s: string, c: char, a: nat)
    requires IsSpace(c) && a <= |s|
    ensures Trailing((s + [c])[a..]) == 1 + Trailing(s[a..])
  {
    assert (s + [c])[a..] == s[a..] + [c];
    TrailingAppendSpace(s[a..], c);
  }

  lemma {:induction false} TrimAt(s: string, a: nat, b: nat)
    requires a == Leading(s) && b == Trailing(s[a..])
    ensures a + b <= |s| && Trim(s) == s[a..|s| - b]
  {
  }

  lemma SliceOfAppend(s: string, c: char, i: nat, j: nat)
    requires i <= j <= |s|
    ensures (s + [c])[i..j] == s[i..j]
  {
  }

  lemma TrailingAppendSpace(u: string, c: char)
    requires IsSpace(c)
    ensures Trailing(u + [c]) == 1 + Trailing(u)
  {
    assert (u + [c])[..|u|] == u;
  }

  /** Appending a whitespace character extends the leading run only when `s` is all whitespace. */
  lemma {:induction false} LeadingAppendSpace(s: string, c: char)
    requires IsSpace(c)
    ensures Leading(s) < |s| ==> Leading(s + [c]) == Leading(s)
    ensures Leading(s) == |s| ==> Leading(s + [c]) == |s| + 1
    decreases |s|
  {
    if |s| > 0 {
      assert (s + [c])[1..] == s[1..] + [c];
      if IsSpace(s[0]) {
        LeadingAppendSpace(s[1..], c);
      }
    } else {
      assert (s + [c])[1..] == [];
    }
  }

  /** ASCII case folding of one character (the part of `toLowerCase` this model keeps). */
  function LowerChar(c: char): char {
    if 'A' <= c <= 'Z' then (c as int + 32) as char else c
  }

  function Lower(s: string): (r: string)
    ensures |r| == |s|
  {
    seq(|s|, i requires 0 <= i < |s| => LowerChar(s[i]))
  }

  /**
   * `c` is `lower` up to ASCII letter case. An independent statement of what
   * comparing `LowerChar(c)` with a lower-case key character means.
   */
  predicate CaseFold(c: char, lower: char) {
    c == lower || ('a' <= lower <= 'z' && c as int == lower as int - 32)
  }

  /** `s` begins with `key` up to ASCII letter case. */
  predicate HasKey(s: string, key: string) {
    |key| <= |s| && forall k :: 0 <= k < |key| ==> CaseFold(s[k], key[k])
  }

  /** A key with no upper-case ASCII letter: the keys App.js compares against lower-cased text. */
  predicate LowerKey(key: string) {
    forall k :: 0 <= k < |key| ==> !('A' <= key[k] <= 'Z')
  }

  /** `Lower(s).startsWith(key)` holds exactly when `s` begins with `key` in any letter case. */
  lemma StartsWithLower(s: string, key: string)
    requires LowerKey(key)
    ensures StartsWith(Lower(s), key) <==> HasKey(s, key)
  {
    if |key| <= |s| {
      var low := Lower(s);
      if StartsWith(low, key) {
        forall k | 0 <= k < |key|
          ensures CaseFold(s[k], key[k])
        {
          assert low[..|key|][k] == key[k];
        }
      }
      if HasKey(s, key) {
        forall k | 0 <= k < |key|
          ensures low[..|key|][k] == key[k]
        {
          assert CaseFold(s[k], key[k]);
        }
        assert low[..|key|] == key;
      }
    }
  }

  predicate StartsWith(s: string, prefix: string) {
    |prefix| <= |s| && s[..|prefix|] == prefix
  }

  predicate EndsWith(s: string, suffix: string) {
    |suffix| <= |s| && s[|s| - |suffix|..] == suffix
  }

  /** JavaScript's `s || fallback` for a string `s`: the empty string is falsy. */
  function Or(s: string, fallback: string): string {
    if s != "" then s else fallback
  }
}
