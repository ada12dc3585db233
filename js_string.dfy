/**
 * The JavaScript string primitives the bumper relies on: `indexOf`,
 * `substring`, `split` and `trim`, with ECMAScript's argument clamping.
 * Strings are sequences of characters; positions count characters.
 */
module JsString {

  /** ECMAScript clamps a position argument into the range [0, len]. */
  function Clamp(pos: int, len: nat): (r: nat)
    ensures r <= len
    ensures 0 <= pos <= len ==> r == pos
    ensures pos < 0 ==> r == 0
  {
    if pos < 0 then 0 else if pos > len then len else pos
  }

  /** The first index at or after `start` that holds `c`, or -1. */
  function FindFrom(s: string, c: char, start: nat): (r: int)
    requires start <= |s|
    ensures r == -1 || (start <= r < |s| && s[r] == c)
    ensures forall k :: start <= k < |s| && (r == -1 || k < r) ==> s[k] != c
    decreases |s| - start
  {
    if start == |s| then -1
    else if s[start] == c then start
    else FindFrom(s, c, start + 1)
  }

  /** `s.indexOf(c, from)`: the search starts at `from` clamped into the string. */
  function IndexOfFrom(s: string, c: char, from: int): (r: int)
    ensures r == -1 <==> forall k :: Clamp(from, |s|) <= k < |s| ==> s[k] != c
    ensures r != -1 ==> Clamp(from, |s|) <= r < |s| && s[r] == c
    ensures forall k :: Clamp(from, |s|) <= k < |s| && (r == -1 || k < r) ==> s[k] != c
  {
    FindFrom(s, c, Clamp(from, |s|))
  }

  /** `s.indexOf(c)`: the first occurrence of `c`, or -1 when there is none. */
  function IndexOf(s: string, c: char): (r: int)
    ensures r == -1 <==> c !in s
    ensures r != -1 ==> 0 <= r < |s| && s[r] == c && c !in s[..r]
  {
    IndexOfFrom(s, c, 0)
  }

  /** A character that is not `c` before a `c` puts the first `c` right after the prefix. */
  lemma IndexOfAfterPrefix(a: string, c: char, b: string)
    requires c !in a
    ensures IndexOf(a + [c] + b, c) == |a|
  {
    var s := a + [c] + b;
    assert s[|a|] == c;
    assert forall k :: 0 <= k < |a| ==> s[k] == a[k];
  }

  /**
   * `s.substring(start, end)`: both arguments are clamped into the string
   * and swapped when the start lies after the end.
   */
  function Substring(s: string, start: int, end: int): (r: string)
    ensures |r| <= |s|
    ensures 0 <= start <= end <= |s| ==> r == s[start..end]
    ensures 0 <= start <= |s| && end < 0 ==> r == s[..start]
    ensures 0 <= end <= start <= |s| ==> r == s[end..start]
  {
    var a, b := Clamp(start, |s|), Clamp(end, |s|);
    if a <= b then s[a..b] else s[b..a]
  }

  /** The inverse of `Split`: the parts glued back with the separator. */
  function Join(parts: seq<string>, sep: char): string
    requires |parts| >= 1
  {
    if |parts| == 1 then parts[0] else parts[0] + [sep] + Join(parts[1..], sep)
  }

  /** `s.split(sep)` for a one-character separator: every piece between separators, empty ones included. */
  function Split(s: string, sep: char): (parts: seq<string>)
    ensures |parts| >= 1
    ensures forall k :: 0 <= k < |parts| ==> sep !in parts[k]
    ensures Join(parts, sep) == s
    decreases |s|
  {
    var k := IndexOf(s, sep);
    if k == -1 then [s]
    else
      var rest := Split(s[k + 1..], sep);
      assert s[..k] + [sep] + s[k + 1..] == s;
      assert ([s[..k]] + rest)[1..] == rest;
      [s[..k]] + rest
  }

  /** Splitting after a separator-free prefix yields that prefix first. */
  lemma SplitAfterPrefix(a: string, sep: char, b: string)
    requires sep !in a
    ensures Split(a + [sep] + b, sep) == [a] + Split(b, sep)
  {
    var s := a + [sep] + b;
    IndexOfAfterPrefix(a, sep, b);
    assert s[..|a|] == a;
    assert s[|a| + 1..] == b;
  }

  /** The parts of a three-component dotted string are its three components. */
  lemma SplitThree(x: string, y: string, z: string)
    requires '.' !in x && '.' !in y && '.' !in z
    ensures Split(x + "." + y + "." + z, '.') == [x, y, z]
  {
    assert x + "." + y + "." + z == x + ['.'] + (y + ['.'] + z);
    SplitAfterPrefix(x, '.', y + ['.'] + z);
    SplitAfterPrefix(y, '.', z);
  }

  /** The characters `String.prototype.trim` removes: ECMAScript white space and line terminators. */
  predicate IsWhiteSpace(c: char)
  {
    || c == '\t' || c == '\n' || c == '\U{000B}' || c == '\U{000C}' || c == '\r' || c == ' '
    || c == '\U{00A0}' || c == '\U{1680}' || ('\U{2000}' <= c <= '\U{200A}')
    || c == '\U{2028}' || c == '\U{2029}' || c == '\U{202F}' || c == '\U{205F}'
    || c == '\U{3000}' || c == '\U{FEFF}'
  }

  /** `s` without its leading white space. */
  function TrimStart(s: string): string
  {
    if s != [] && IsWhiteSpace(s[0]) then TrimStart(s[1..]) else s
  }

  /** `s` without its trailing white space. */
  function TrimEnd(s: string): string
  {
    if s != [] && IsWhiteSpace(s[|s| - 1]) then TrimEnd(s[..|s| - 1]) else s
  }

  /** `s.trim()`: `s` without leading and trailing white space. */
  function Trim(s: string): (r: string)
    ensures |r| <= |s|
    ensures r != [] ==> !IsWhiteSpace(r[0]) && !IsWhiteSpace(r[|r| - 1])
  {
    TrimStartSpec(s);
    TrimEndSpec(TrimStart(s));
    TrimEnd(TrimStart(s))
  }

  /** `TrimStart` drops a prefix made of white space and stops at the first other character. */
  lemma {:induction false} TrimStartSpec(s: string)
    ensures var r := TrimStart(s);
      && |r| <= |s| && r == s[|s| - |r|..]
      && (forall k :: 0 <= k < |s| - |r| ==> IsWhiteSpace(s[k]))
      && (r != [] ==> !IsWhiteSpace(r[0]))
  {
    if s != [] && IsWhiteSpace(s[0]) {
      TrimStartSpec(s[1..]);
      var r := TrimStart(s[1..]);
      forall k | 0 <= k < |s| - |r| ensures IsWhiteSpace(s[k]) {
        if k > 0 {
          assert s[k] == s[1..][k - 1];
        }
      }
    }
  }

  /** `TrimEnd` drops a suffix made of white space and stops at the last other character. */
  lemma {:induction false} TrimEndSpec(s: string)
    ensures var r := TrimEnd(s);
      && |r| <= |s| && r == s[..|r|]
      && (forall k :: |r| <= k < |s| ==> IsWhiteSpace(s[k]))
      && (r != [] ==> !IsWhiteSpace(r[|r| - 1]))
  {
    if s != [] && IsWhiteSpace(s[|s| - 1]) {
      TrimEndSpec(s[..|s| - 1]);
    }
  }

  /**
   * `Trim` keeps the part of `s` between its leading and trailing white
   * space: an infix that neither starts nor ends with white space.
   */
  lemma TrimSpec(s: string)
    ensures var r, a := Trim(s), |s| - |TrimStart(s)|;
      && 0 <= a && a + |r| <= |s| && r == s[a..a + |r|]
      && (forall k :: 0 <= k < a ==> IsWhiteSpace(s[k]))
      && (forall k :: a + |r| <= k < |s| ==> IsWhiteSpace(s[k]))
      && (r != [] ==> !IsWhiteSpace(r[0]) && !IsWhiteSpace(r[|r| - 1]))
  {
    TrimStartSpec(s);
    var t := TrimStart(s);
    TrimEndSpec(t);
    var r := TrimEnd(t);
    var a := |s| - |t|;
    assert t == s[a..];
    assert r == t[..|r|];
    assert r == s[a..a + |r|];
    forall k | a + |r| <= k < |s| ensures IsWhiteSpace(s[k]) {
      assert s[k] == t[k - a];
    }
  }

  /** A string that neither starts nor ends with white space is its own `trim()`. */
  lemma TrimKeepsTrimmed(s: string)
    requires s != [] && !IsWhiteSpace(s[0]) && !IsWhiteSpace(s[|s| - 1])
    ensures Trim(s) == s
  {
    assert TrimStart(s) == s;
    assert TrimEnd(s) == s;
  }
}
