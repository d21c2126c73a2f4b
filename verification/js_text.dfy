/**
 The two JavaScript string operations the chat command matcher relies on:
 `String.prototype.trim` and `String.prototype.toLowerCase` (letters A to Z only).
 */
module JsText {

  /** The characters `trim` removes: white space and line terminators. */
  predicate IsTrimmable(c: char) {
    || c == '\t' || c == '\n' || c == '\U{000B}' || c == '\U{000C}' || c == '\r' || c == ' '
    || c == '\U{00A0}' || c == '\U{1680}' || ('\U{2000}' <= c <= '\U{200A}')
    || c == '\U{2028}' || c == '\U{2029}' || c == '\U{202F}' || c == '\U{205F}'
    || c == '\U{3000}' || c == '\U{FEFF}'
  }

  predicate AllTrimmable(s: string) {
    forall i | 0 <= i < |s| :: IsTrimmable(s[i])
  }

  /** `s` without its leading white space. */
  function TrimStart(s: string): (r: string)
    ensures |r| <= |s| && r == s[|s| - |r|..]
    ensures AllTrimmable(s[..|s| - |r|])
    ensures |r| == 0 || !IsTrimmable(r[0])
  {
    if |s| > 0 && IsTrimmable(s[0]) then
      var r := TrimStart(s[1..]);
      assert s[..|s| - |r|] == [s[0]] + s[1..][..|s| - 1 - |r|];
      r
    else s
  }

  /** `s` without its trailing white space. */
  function TrimEnd(s: string): (r: string)
    ensures |r| <= |s| && r == s[..|r|]
    ensures AllTrimmable(s[|r|..])
    ensures |r| == 0 || !IsTrimmable(r[|r| - 1])
  {
    if |s| > 0 && IsTrimmable(s[|s| - 1]) then
      var r := TrimEnd(s[..|s| - 1]);
      assert s[|r|..] == s[..|s| - 1][|r|..] + [s[|s| - 1]];
      r
    else s
  }

  /** `s` without white space at either end: a middle piece of `s`. */
  function Trim(s: string): (r: string)
    ensures var i := |s| - |TrimStart(s)|; i + |r| <= |s| && r == s[i..i + |r|]
  {
    var t := TrimStart(s);
    var r := TrimEnd(t);
    PrefixOfSuffix(s, |s| - |t|, |r|);
    r
  }

  lemma PrefixOfSuffix(s: string, i: nat, n: nat)
    requires i + n <= |s|
    ensures s[i..][..n] == s[i..i + n]
  {
  }

  /** The trimmed string neither starts nor ends with white space. */
  lemma TrimmedEnds(s: string)
    ensures var r := Trim(s);
      |r| == 0 || (!IsTrimmable(r[0]) && !IsTrimmable(r[|r| - 1]))
  {
    var t := TrimStart(s);
    var r := TrimEnd(t);
    assert Trim(s) == r;
    assert |r| > 0 ==> r[0] == t[0];
  }

  /** What `Trim` drops at either end is white space. */
  lemma TrimDropsWhiteSpace(s: string)
    ensures var r := Trim(s);
      var i := |s| - |TrimStart(s)|;
      AllTrimmable(s[..i]) && AllTrimmable(s[i + |r|..])
  {
    var t := TrimStart(s);
    var r := TrimEnd(t);
    var i := |s| - |t|;
    assert Trim(s) == r;
    assert s[i + |r|..] == t[|r|..];
  }

  /** Leading white space in front of a non-blank start is exactly what `TrimStart` drops. */
  lemma {:induction false} TrimStartSkips(w: string, r: string)
    requires AllTrimmable(w)
    requires |r| == 0 || !IsTrimmable(r[0])
    ensures TrimStart(w + r) == r
    decreases |w|
  {
    if |w| > 0 {
      assert (w + r)[0] == w[0];
      assert (w + r)[1..] == w[1..] + r;
      TrimStartSkips(w[1..], r);
    } else {
      assert w + r == r;
    }
  }

  /** Trailing white space behind a non-blank end is exactly what `TrimEnd` drops. */
  lemma {:induction false} TrimEndSkips(r: string, w: string)
    requires AllTrimmable(w)
    requires |r| == 0 || !IsTrimmable(r[|r| - 1])
    ensures TrimEnd(r + w) == r
    decreases |w|
  {
    if |w| > 0 {
      var rw := r + w;
      assert rw[|rw| - 1] == w[|w| - 1];
      assert rw[..|rw| - 1] == r + w[..|w| - 1];
      TrimEndSkips(r, w[..|w| - 1]);
    } else {
      assert r + w == r;
    }
  }

  /** Lower-casing of one character; only A to Z change. */
  function Lower(c: char): char {
    if 'A' <= c <= 'Z' then (c as int - 'A' as int + 'a' as int) as char else c
  }

  function ToLower(s: string): (r: string)
    ensures |r| == |s|
    ensures forall i | 0 <= i < |s| :: r[i] == Lower(s[i])
  {
    seq(|s|, i requires 0 <= i < |s| => Lower(s[i]))
  }
}
