/** String operations of the ECMAScript library that the source relies on,
    over `string` (a sequence of code points). */
module Strings {

  /** `s.startsWith(prefix)`. */
  predicate StartsWith(s: string, prefix: string) {
    |prefix| <= |s| && s[..|prefix|] == prefix
  }

  /** `s.includes(sub)`: `sub` occurs at some offset of `s`. */
  predicate Contains(s: string, sub: string)
    decreases |s|
  {
    StartsWith(s, sub) || (|s| > 0 && Contains(s[1..], sub))
  }

  /** Every string contains the empty string, so an empty search term
      matches everything. */
  lemma ContainsEmpty(s: string)
    ensures Contains(s, "")
  {
    assert s[..0] == "";
  }

  /** `Contains` agrees with the offset view of `includes`. */
  lemma {:induction false} ContainsAt(s: string, sub: string)
    ensures Contains(s, sub) <==> exists i :: 0 <= i <= |s| - |sub| && s[i..][..|sub|] == sub
    decreases |s|
  {
    if StartsWith(s, sub) {
      assert s[0..] == s;
      assert 0 <= 0 <= |s| - |sub| && s[0..][..|sub|] == sub;
    } else if |s| > 0 {
      ContainsAt(s[1..], sub);
      if Contains(s[1..], sub) {
        var i :| 0 <= i <= |s[1..]| - |sub| && s[1..][i..][..|sub|] == sub;
        assert s[i + 1..] == s[1..][i..];
      }
      if exists i :: 0 <= i <= |s| - |sub| && s[i..][..|sub|] == sub {
        var i :| 0 <= i <= |s| - |sub| && s[i..][..|sub|] == sub;
        assert s[0..] == s;
        assert i > 0;
        assert s[1..][i - 1..] == s[i..];
      }
    }
  }

  /** `toLowerCase` on one character; only the ASCII letters are mapped. */
  function LowerChar(c: char): (r: char)
    ensures 'A' <= c <= 'Z' ==> r != c && 'a' <= r <= 'z'
    ensures !('A' <= c <= 'Z') ==> r == c
  {
    if 'A' <= c <= 'Z' then (c as int - 'A' as int + 'a' as int) as char else c
  }

  /** `s.toLowerCase()`. */
  function Lower(s: string): (r: string)
    ensures |r| == |s|
    ensures forall i :: 0 <= i < |s| ==> r[i] == LowerChar(s[i])
  {
    seq(|s|, i requires 0 <= i < |s| => LowerChar(s[i]))
  }

  /** Lower-casing twice is lower-casing once. */
  lemma LowerIdempotent(s: string)
    ensures Lower(Lower(s)) == Lower(s)
  {
  }

  /** The characters `String.prototype.trim` removes: the ECMAScript
      WhiteSpace and LineTerminator code points. */
  predicate IsWhitespace(c: char) {
    c == ' ' || c == '\t' || c == '\n' || c == '\r' || c == '\U{000B}' || c == '\U{000C}'
    || c == '\U{00A0}' || c == '\U{1680}' || ('\U{2000}' <= c <= '\U{200A}')
    || c == '\U{2028}' || c == '\U{2029}' || c == '\U{202F}' || c == '\U{205F}'
    || c == '\U{3000}' || c == '\U{FEFF}'
  }

  predicate IsBlank(s: string) {
    forall i :: 0 <= i < |s| ==> IsWhitespace(s[i])
  }

  function TrimStart(s: string): (r: string)
    ensures |r| <= |s| && r == s[|s| - |r|..]
    ensures |r| > 0 ==> !IsWhitespace(r[0])
    ensures IsBlank(s[..|s| - |r|])
    decreases |s|
  {
    if |s| > 0 && IsWhitespace(s[0]) then
      var r := TrimStart(s[1..]);
      assert s[..|s| - |r|] == [s[0]] + s[1..][..|s[1..]| - |r|];
      r
    else s
  }

  function TrimEnd(s: string): (r: string)
    ensures |r| <= |s| && r == s[..|r|]
    ensures |r| > 0 ==> !IsWhitespace(r[|r| - 1])
    ensures IsBlank(s[|r|..])
    decreases |s|
  {
    if |s| > 0 && IsWhitespace(s[|s| - 1]) then
      var r := TrimEnd(s[..|s| - 1]);
      assert s[|r|..] == s[..|s| - 1][|r|..] + [s[|s| - 1]];
      r
    else s
  }

  /** `s.trim()`. */
  function Trim(s: string): (r: string)
    ensures |r| <= |s|
  {
    TrimEnd(TrimStart(s))
  }

  /** `s.trim().length > 0` holds exactly when `s` has a character that is not
      whitespace. */
  lemma TrimEmptyIffBlank(s: string)
    ensures |Trim(s)| == 0 <==> IsBlank(s)
  {
    var t := TrimStart(s);
    if |Trim(s)| == 0 {
      assert IsBlank(t[0..]);
      assert s == s[..|s| - |t|] + t;
    } else {
      var r := Trim(s);
      assert !IsWhitespace(r[0]);
      assert r[0] == t[0] == s[|s| - |t|];
    }
  }

  /** Lexicographic order by code point: `a` sorts at or before `b`. This is
      the order of SQLite's default BINARY collation over UTF-8 text. */
  predicate LexLe(a: string, b: string)
    decreases |a|
  {
    |a| == 0 || (|b| > 0 && (a[0] < b[0] || (a[0] == b[0] && LexLe(a[1..], b[1..]))))
  }

  lemma {:induction false} LexLeTotal(a: string, b: string)
    ensures LexLe(a, b) || LexLe(b, a)
    decreases |a|
  {
    if |a| > 0 && |b| > 0 && a[0] == b[0] {
      LexLeTotal(a[1..], b[1..]);
    }
  }

  lemma {:induction false} LexLeTransitive(a: string, b: string, c: string)
    requires LexLe(a, b) && LexLe(b, c)
    ensures LexLe(a, c)
    decreases |a|
  {
    if |a| > 0 && a[0] == b[0] && b[0] == c[0] {
      LexLeTransitive(a[1..], b[1..], c[1..]);
    }
  }
}
