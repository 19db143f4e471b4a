/**
 * The JavaScript string operations the portal relies on: `trim()`, the
 * `charAt(0).toUpperCase() + slice(1)` capitalisation, and `replace('-', ' ')`,
 * which with a string pattern replaces only the FIRST occurrence.
 */
module Text {

  /** The characters `String.prototype.trim` removes: ECMAScript WhiteSpace and LineTerminator. */
  predicate IsWhitespace(c: char) {
    || c == '\t' || c == '\n' || c == '\U{000B}' || c == '\U{000C}' || c == '\r' || c == ' '
    || c == '\U{00A0}' || c == '\U{1680}' || ('\U{2000}' <= c <= '\U{200A}')
    || c == '\U{2028}' || c == '\U{2029}' || c == '\U{202F}' || c == '\U{205F}'
    || c == '\U{3000}' || c == '\U{FEFF}'
  }

  /** A form value that `trim()` turns into the empty string. */
  predicate Blank(s: string) {
    forall i :: 0 <= i < |s| ==> IsWhitespace(s[i])
  }

  /** Drops leading whitespace: the result is the longest suffix that starts with a non-whitespace character. */
  function TrimStart(s: string): (r: string)
    ensures |r| <= |s| && r == s[|s| - |r|..]
    ensures Blank(s[..|s| - |r|])
    ensures r != [] ==> !IsWhitespace(r[0])
  {
    if s != [] && IsWhitespace(s[0]) then
      var r := TrimStart(s[1..]);
      BlankCons(s, s[1..], |s[1..]| - |r|);
      r
    else s
  }

  /** Drops trailing whitespace: the result is the longest prefix that ends with a non-whitespace character. */
  function TrimEnd(s: string): (r: string)
    ensures |r| <= |s| && r == s[..|r|]
    ensures Blank(s[|r|..])
    ensures r != [] ==> !IsWhitespace(r[|r| - 1])
  {
    if s != [] && IsWhitespace(s[|s| - 1]) then
      var r := TrimEnd(s[..|s| - 1]);
      BlankSnoc(s, s[..|s| - 1], |r|);
      r
    else s
  }

  /** A blank prefix of `s[1..]` after a leading whitespace character makes a blank prefix of `s`. */
  lemma BlankCons(s: string, t: string, n: int)
    requires s != [] && t == s[1..] && 0 <= n <= |t| && IsWhitespace(s[0]) && Blank(t[..n])
    ensures Blank(s[..n + 1])
  {
    var p := s[..n + 1];
    forall i | 1 <= i < |p|
      ensures IsWhitespace(p[i])
    {
      assert p[i] == t[..n][i - 1];
    }
  }

  /** A blank suffix of `s[..|s| - 1]` before a trailing whitespace character makes a blank suffix of `s`. */
  lemma BlankSnoc(s: string, t: string, n: int)
    requires s != [] && t == s[..|s| - 1] && 0 <= n <= |t| && IsWhitespace(s[|s| - 1]) && Blank(t[n..])
    ensures Blank(s[n..])
  {
    forall i | 0 <= i < |t| - n
      ensures IsWhitespace(s[n..][i])
    {
      assert s[n..][i] == t[n..][i];
    }
  }

  /** `String.prototype.trim`: the middle of `s` between a blank prefix and a blank suffix. */
  function Trim(s: string): (r: string)
    ensures |r| <= |s|
    ensures exists i, j :: 0 <= i <= j <= |s| && r == s[i..j] && Blank(s[..i]) && Blank(s[j..])
    ensures r != [] ==> !IsWhitespace(r[0]) && !IsWhitespace(r[|r| - 1])
    ensures r == [] <==> Blank(s)
  {
    var t := TrimStart(s);
    MiddleSlice(s, t, TrimEnd(t));
    TrimEnd(t)
  }

  /** Cutting a blank prefix and then a blank suffix leaves a middle slice; the input is blank
      exactly when that slice is empty, given that a non-empty `t` starts with a non-whitespace character. */
  lemma MiddleSlice(s: string, t: string, r: string)
    requires |t| <= |s| && t == s[|s| - |t|..] && Blank(s[..|s| - |t|])
    requires |r| <= |t| && r == t[..|r|] && Blank(t[|r|..])
    requires t != [] ==> !IsWhitespace(t[0])
    ensures var i, j := |s| - |t|, |s| - |t| + |r|;
      r == s[i..j] && Blank(s[..i]) && Blank(s[j..])
    ensures r == [] <==> Blank(s)
  {
    var i, j := |s| - |t|, |s| - |t| + |r|;
    assert s[j..] == t[|r|..];
    assert r == s[i..j];
    if t != [] {
      assert s[i] == t[0];
    } else {
      assert s == s[..i];
    }
  }

  /** Trimming a trimmed value changes nothing. */
  lemma TrimIdempotent(s: string)
    ensures Trim(Trim(s)) == Trim(s)
  {
    var r := Trim(s);
    assert TrimStart(r) == r;
    assert TrimEnd(r) == r;
  }

  /** `toUpperCase` on one character, for the ASCII letters a-z; every other character is kept. */
  function ToUpper(c: char): (r: char)
    ensures !('a' <= r <= 'z')
    ensures r != c <==> 'a' <= c <= 'z'
    ensures 'a' <= c <= 'z' ==> 'A' <= r <= 'Z' && r as int - 'A' as int == c as int - 'a' as int
  {
    if 'a' <= c <= 'z' then (c as int - 32) as char else c
  }

  /** `s.charAt(0).toUpperCase() + s.slice(1)`; on the empty string both parts are empty. */
  function Capitalize(s: string): string {
    if s == [] then [] else [ToUpper(s[0])] + s[1..]
  }

  /** Capitalising keeps the length and every character after the first, upper-cases the first
      (no lower-case ASCII letter is left there), and a second application changes nothing. */
  lemma CapitalizeProperties(s: string)
    ensures |Capitalize(s)| == |s|
    ensures forall i :: 1 <= i < |s| ==> Capitalize(s)[i] == s[i]
    ensures s != [] ==> Capitalize(s)[0] == ToUpper(s[0]) && !('a' <= Capitalize(s)[0] <= 'z')
    ensures s == [] <==> Capitalize(s) == []
    ensures Capitalize(Capitalize(s)) == Capitalize(s)
  {
  }

  /** `s.replace(from, to)` with a one-character string pattern: only the first `from` is replaced. */
  function ReplaceFirst(s: string, from: char, to: char): (r: string)
    ensures |r| == |s|
  {
    if s == [] then []
    else if s[0] == from then [to] + s[1..]
    else [s[0]] + ReplaceFirst(s[1..], from, to)
  }

  /** Split at the first `from`: the prefix before it and everything after it are kept. */
  lemma {:induction false} ReplaceFirstSplit(a: string, b: string, from: char, to: char)
    requires from !in a
    ensures ReplaceFirst(a + [from] + b, from, to) == a + [to] + b
  {
    if a != [] {
      assert (a + [from] + b)[1..] == a[1..] + [from] + b;
      ReplaceFirstSplit(a[1..], b, from, to);
    }
  }

  /** Number of times `c` occurs in `s`. */
  function Occurrences(s: string, c: char): nat {
    if s == [] then 0 else (if s[0] == c then 1 else 0) + Occurrences(s[1..], c)
  }

  lemma {:induction false} OccursIffCounted(s: string, c: char)
    ensures c in s <==> Occurrences(s, c) > 0
  {
    if s != [] {
      OccursIffCounted(s[1..], c);
      assert s == [s[0]] + s[1..];
    }
  }

  /** Replacing the first `from` removes exactly one occurrence of it, when there is one. */
  lemma {:induction false} ReplaceFirstCount(s: string, from: char, to: char)
    requires from != to
    ensures Occurrences(ReplaceFirst(s, from, to), from)
            == if from in s then Occurrences(s, from) - 1 else Occurrences(s, from)
  {
    if s != [] {
      assert s == [s[0]] + s[1..];
      var r := ReplaceFirst(s, from, to);
      assert r[1..] == if s[0] == from then s[1..] else ReplaceFirst(s[1..], from, to);
      if s[0] != from {
        ReplaceFirstCount(s[1..], from, to);
      }
    }
  }

  /** `replace` leaves the string as it is exactly when the pattern does not occur in it. */
  lemma {:induction false} ReplaceFirstFixedIff(s: string, from: char, to: char)
    requires from != to
    ensures ReplaceFirst(s, from, to) == s <==> from !in s
  {
    if s != [] {
      assert s == [s[0]] + s[1..];
      var r := ReplaceFirst(s, from, to);
      if s[0] != from {
        ReplaceFirstFixedIff(s[1..], from, to);
        assert r == [s[0]] + ReplaceFirst(s[1..], from, to);
        assert r == s <==> ReplaceFirst(s[1..], from, to) == s[1..];
      } else {
        assert r[0] != s[0];
      }
    }
  }

  /** The status text shown in both complaint views: `status.replace('-', ' ')`. */
  function StatusDisplay(status: string): string {
    ReplaceFirst(status, '-', ' ')
  }

  /** A status without a hyphen is shown as it is. */
  lemma StatusDisplayWithoutHyphen(status: string)
    requires '-' !in status
    ensures StatusDisplay(status) == status
  {
    ReplaceFirstFixedIff(status, '-', ' ');
  }

  /** "in-progress" is shown as "in progress". The literal is passed in as `status` only to keep
      the proof cheap: with the literal in the ensures the solver unfolds `ReplaceFirst` character
      by character. */
  lemma StatusDisplayInProgress(status: string)
    requires status == "in-progress"
    ensures StatusDisplay(status) == "in progress"
  {
    assert status == "in" + "-" + "progress";
    ReplaceFirstSplit("in", "progress", '-', ' ');
  }

  /** Applying the status display twice gives the same text as once exactly when the status holds
      at most one hyphen: a second hyphen survives the first pass and is replaced by the second. */
  lemma StatusDisplayIdempotentIff(status: string)
    ensures StatusDisplay(StatusDisplay(status)) == StatusDisplay(status) <==> Occurrences(status, '-') <= 1
  {
    var t := StatusDisplay(status);
    ReplaceFirstFixedIff(t, '-', ' ');
    OccursIffCounted(t, '-');
    OccursIffCounted(status, '-');
    ReplaceFirstCount(status, '-', ' ');
  }
}
