/**
 * The parts of JavaScript's String API that the task listing relies on:
 * character classes, `String.prototype.trim`, and `split` / `join` on a
 * one-character separator.
 */
module Strings {

  /** ASCII lower-case letter: the `[a-z]` class of a regular expression. */
  predicate IsLower(c: char) { 'a' <= c <= 'z' }

  /** ASCII upper-case letter: the `[A-Z]` class of a regular expression. */
  predicate IsUpper(c: char) { 'A' <= c <= 'Z' }

  /**
   * The characters `String.prototype.trim` strips: ECMAScript WhiteSpace
   * (TAB, VT, FF, ZWNBSP and the Zs category) and LineTerminator (LF, CR,
   * LS, PS).
   */
  predicate IsSpace(c: char) {
    || c == '\t' || c == '\U{000B}' || c == '\U{000C}' || c == '\U{FEFF}'
    || c == ' ' || c == '\U{00A0}' || c == '\U{1680}'
    || ('\U{2000}' <= c <= '\U{200A}')
    || c == '\U{202F}' || c == '\U{205F}' || c == '\U{3000}'
    || c == '\n' || c == '\r' || c == '\U{2028}' || c == '\U{2029}'
  }

  predicate AllSpace(s: string) {
    forall k :: 0 <= k < |s| ==> IsSpace(s[k])
  }

  /** Neither end of `s` is a character that `trim` would strip. */
  predicate Trimmed(s: string) {
    |s| == 0 || (!IsSpace(s[0]) && !IsSpace(s[|s| - 1]))
  }

  /** `s` with its leading white space removed. */
  function TrimStart(s: string): (r: string)
    ensures |r| <= |s| && r == s[|s| - |r|..]
    ensures AllSpace(s[..|s| - |r|])
    ensures |r| == 0 || !IsSpace(r[0])
    decreases |s|
  {
    if |s| > 0 && IsSpace(s[0]) then
      var r := TrimStart(s[1..]);
      assert s[1..][|s| - 1 - |r|..] == s[|s| - |r|..];
      assert forall k :: 1 <= k < |s| - |r| ==> s[k] == s[1..][..|s| - 1 - |r|][k - 1];
      r
    else s
  }

  /** `s` with its trailing white space removed. */
  function TrimEnd(s: string): (r: string)
    ensures |r| <= |s| && r == s[..|r|]
    ensures AllSpace(s[|r|..])
    ensures |r| == 0 || !IsSpace(r[|r| - 1])
    decreases |s|
  {
    if |s| > 0 && IsSpace(s[|s| - 1]) then
      var r := TrimEnd(s[..|s| - 1]);
      assert s[..|s| - 1][..|r|] == s[..|r|];
      assert forall k :: |r| <= k < |s| - 1 ==> s[k] == s[..|s| - 1][|r|..][k - |r|];
      r
    else s
  }

  /**
   * Dropping leading white space from `s` to get `a`, then trailing white
   * space from `a` to get `r`, cuts `s` into white space, `r` and white
   * space.
   */
  lemma TrimBothEnds(s: string, a: string, r: string)
    requires |a| <= |s| && a == s[|s| - |a|..] && AllSpace(s[..|s| - |a|])
    requires |a| == 0 || !IsSpace(a[0])
    requires |r| <= |a| && r == a[..|r|] && AllSpace(a[|r|..])
    requires |r| == 0 || !IsSpace(r[|r| - 1])
    ensures r == s[|s| - |a|..|s| - |a| + |r|]
    ensures AllSpace(s[|s| - |a| + |r|..])
    ensures Trimmed(r)
  {
    var i := |s| - |a|;
    assert a[|r|..] == s[i + |r|..];
    if |r| > 0 {
      assert r[0] == a[0];
    }
  }

  /**
   * `String.prototype.trim`: the longest infix of `s` that neither starts
   * nor ends with white space, obtained by dropping white space only.
   */
  function Trim(s: string): (r: string)
    ensures Trimmed(r)
    ensures exists i, j :: 0 <= i <= j <= |s| && r == s[i..j] && AllSpace(s[..i]) && AllSpace(s[j..])
  {
    var a := TrimStart(s);
    var r := TrimEnd(a);
    TrimBothEnds(s, a, r);
    r
  }

  /** A string that is already trimmed is left alone by `trim`. */
  lemma TrimmedIsFixed(s: string)
    requires Trimmed(s)
    ensures Trim(s) == s
  {
  }

  /** `trim` is idempotent. */
  lemma TrimIdempotent(s: string)
    ensures Trim(Trim(s)) == Trim(s)
  {
    TrimmedIsFixed(Trim(s));
  }

  /** The separator-free pieces of `s`, as `s.split(sep)` returns them (never an empty list). */
  function Split(s: string, sep: char): (r: seq<string>)
    ensures |r| > 0
    ensures forall k :: 0 <= k < |r| ==> sep !in r[k]
    decreases |s|
  {
    if |s| == 0 then [""]
    else
      var rest := Split(s[1..], sep);
      if s[0] == sep then [""] + rest
      else [[s[0]] + rest[0]] + rest[1..]
  }

  /** `parts.join(sep)`. */
  function Join(parts: seq<string>, sep: char): string
    decreases |parts|
  {
    if |parts| == 0 then ""
    else if |parts| == 1 then parts[0]
    else parts[0] + [sep] + Join(parts[1..], sep)
  }

  lemma JoinConsHead(x: string, parts: seq<string>, sep: char)
    requires |parts| > 0
    ensures Join([x + parts[0]] + parts[1..], sep) == x + Join(parts, sep)
  {
    var p := [x + parts[0]] + parts[1..];
    assert p[1..] == parts[1..];
  }

  /** Joining the pieces of a split with the same separator gives back the string. */
  lemma {:induction false} JoinSplit(s: string, sep: char)
    ensures Join(Split(s, sep), sep) == s
    decreases |s|
  {
    if |s| > 0 {
      var rest := Split(s[1..], sep);
      JoinSplit(s[1..], sep);
      if s[0] == sep {
        assert ([""] + rest)[1..] == rest;
        assert s == [sep] + s[1..];
      } else {
        JoinConsHead([s[0]], rest, sep);
        assert s == [s[0]] + s[1..];
      }
    }
  }

  /** Splitting a join of separator-free pieces recovers the pieces. */
  lemma {:induction false} SplitJoin(parts: seq<string>, sep: char)
    requires |parts| > 0
    requires forall k :: 0 <= k < |parts| ==> sep !in parts[k]
    ensures Split(Join(parts, sep), sep) == parts
    decreases |parts|, |parts[0]|
  {
    var p := parts[0];
    if |p| == 0 {
      if |parts| > 1 {
        var tail := parts[1..];
        SplitJoin(tail, sep);
        var j := Join(parts, sep);
        assert j == [sep] + Join(tail, sep);
        assert j[1..] == Join(tail, sep);
        assert Split(j, sep) == [""] + tail;
      }
    } else {
      var q := [p[1..]] + parts[1..];
      assert q[1..] == parts[1..];
      assert forall k :: 0 <= k < |q| ==> sep !in q[k] by {
        forall k | 0 <= k < |q| ensures sep !in q[k] {
          if k == 0 {
            assert forall c :: c in p[1..] ==> c in p;
          } else {
            assert q[k] == parts[k];
          }
        }
      }
      SplitJoin(q, sep);
      JoinConsHead([p[0]], q, sep);
      assert [p[0]] + q[0] == p;
      assert [p] + q[1..] == parts;
      var j := Join(parts, sep);
      assert j == [p[0]] + Join(q, sep);
      assert j[1..] == Join(q, sep);
      assert j[0] == p[0] && p[0] != sep;
      var rest := Split(j[1..], sep);
      assert rest == q;
      assert Split(j, sep) == [[p[0]] + rest[0]] + rest[1..];
    }
  }

  /** A string without the separator splits into itself alone. */
  lemma {:induction false} SplitWithoutSeparator(s: string, sep: char)
    requires sep !in s
    ensures Split(s, sep) == [s]
    decreases |s|
  {
    if |s| > 0 {
      assert sep !in s[1..] by {
        assert forall c :: c in s[1..] ==> c in s;
      }
      SplitWithoutSeparator(s[1..], sep);
      assert [s[0]] + s[1..] == s;
    }
  }
}
