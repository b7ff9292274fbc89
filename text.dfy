/**
  The two string operations the pipeline applies to a line: `str::trim`,
  used to recognise blank lines, and `str::to_lowercase`, used to build
  the case-insensitive comparison key.
 */
module Text {

  /**
    Rust's `char::is_whitespace`: the characters with the Unicode
    White_Space property, which is what `str::trim` strips.
   */
  predicate IsWhitespace(c: char) {
    || ('\t' <= c <= '\r')
    || c == ' '
    || c == '\U{0085}'
    || c == '\U{00A0}'
    || c == '\U{1680}'
    || ('\U{2000}' <= c <= '\U{200A}')
    || c == '\U{2028}'
    || c == '\U{2029}'
    || c == '\U{202F}'
    || c == '\U{205F}'
    || c == '\U{3000}'
  }

  /** `str::trim_start`: the suffix left after dropping leading whitespace. */
  function TrimStart(s: string): (r: string)
    ensures |r| <= |s| && r == s[|s| - |r|..]
    ensures forall i :: 0 <= i < |s| - |r| ==> IsWhitespace(s[i])
    ensures r == [] || !IsWhitespace(r[0])
  {
    if s != [] && IsWhitespace(s[0]) then TrimStart(s[1..]) else s
  }

  /** `str::trim_end`: the prefix left after dropping trailing whitespace. */
  function TrimEnd(s: string): (r: string)
    ensures |r| <= |s| && r == s[..|r|]
    ensures forall i :: |r| <= i < |s| ==> IsWhitespace(s[i])
    ensures r == [] || !IsWhitespace(r[|r| - 1])
  {
    if s != [] && IsWhitespace(s[|s| - 1]) then TrimEnd(s[..|s| - 1]) else s
  }

  /**
    `str::trim`: what is left between the leading and the trailing
    whitespace. It is empty exactly when every character is whitespace, and
    otherwise neither starts nor ends with whitespace.
   */
  function Trim(s: string): (r: string)
    ensures |r| <= |s|
    ensures r == [] || (!IsWhitespace(r[0]) && !IsWhitespace(r[|r| - 1]))
    ensures r == [] <==> forall i :: 0 <= i < |s| ==> IsWhitespace(s[i])
  {
    var t := TrimStart(s);
    var r := TrimEnd(t);
    assert t != [] ==> !IsWhitespace(s[|s| - |t|]);
    r
  }

  /**
    `trim` returns the middle of the line: once the leading whitespace
    (everything `TrimStart` drops) is skipped, the result is the next stretch
    of the line, and everything after it is whitespace.
   */
  lemma TrimMiddle(s: string)
    ensures var a, r := |s| - |TrimStart(s)|, Trim(s);
            a + |r| <= |s| && r == s[a..a + |r|]
            && (forall i :: 0 <= i < a ==> IsWhitespace(s[i]))
            && (forall i :: a + |r| <= i < |s| ==> IsWhitespace(s[i]))
  {
    var t := TrimStart(s);
    var r := TrimEnd(t);
    var a := |s| - |t|;
    assert t == s[a..];
    assert r == t[..|r|];
    forall i | a + |r| <= i < |s| ensures IsWhitespace(s[i]) {
      assert s[i] == t[i - a];
    }
  }

  /**
    The predicate of the blank filter: `l.trim().is_empty()`. A line is
    blank exactly when it consists of whitespace only (the empty line
    included).
   */
  function IsBlank(line: string): (b: bool)
    ensures b <==> forall i :: 0 <= i < |line| ==> IsWhitespace(line[i])
  {
    |Trim(line)| == 0
  }

  /** The ASCII part of `char::to_lowercase`. */
  function ToLowerChar(c: char): (d: char)
    ensures 'A' <= c <= 'Z' ==> d as int == c as int - 'A' as int + 'a' as int
    ensures !('A' <= d <= 'Z')
    ensures !('A' <= c <= 'Z') ==> d == c
  {
    if 'A' <= c <= 'Z' then (c as int - 'A' as int + 'a' as int) as char else c
  }

  /** `str::to_lowercase`, restricted to ASCII letters: character by character. */
  function ToLower(s: string): (r: string)
    ensures |r| == |s|
    ensures forall i :: 0 <= i < |s| ==> r[i] == ToLowerChar(s[i])
  {
    if s == [] then [] else [ToLowerChar(s[0])] + ToLower(s[1..])
  }

  /**
    Two characters that are equal up to ASCII case: the same character, or
    an upper-case ASCII letter and its lower-case partner.
   */
  predicate SameIgnoringAsciiCase(a: char, b: char) {
    || a == b
    || ('A' <= a <= 'Z' && b as int - a as int == 'a' as int - 'A' as int)
    || ('A' <= b <= 'Z' && a as int - b as int == 'a' as int - 'A' as int)
  }

  /** Two characters lower to the same character exactly when they agree up to ASCII case. */
  lemma ToLowerCharAgree(a: char, b: char)
    ensures ToLowerChar(a) == ToLowerChar(b) <==> SameIgnoringAsciiCase(a, b)
  {
  }

  /**
    Two strings lower to the same string exactly when they have the same
    length and agree up to ASCII case at every position.
   */
  lemma ToLowerAgree(s: string, t: string)
    ensures ToLower(s) == ToLower(t) <==>
            |s| == |t| && forall i :: 0 <= i < |s| ==> SameIgnoringAsciiCase(s[i], t[i])
  {
    if ToLower(s) == ToLower(t) {
      forall i | 0 <= i < |s| ensures SameIgnoringAsciiCase(s[i], t[i]) {
        assert ToLower(s)[i] == ToLower(t)[i];
        ToLowerCharAgree(s[i], t[i]);
      }
    }
    if |s| == |t| && forall i :: 0 <= i < |s| ==> SameIgnoringAsciiCase(s[i], t[i]) {
      forall i | 0 <= i < |s| ensures ToLower(s)[i] == ToLower(t)[i] {
        ToLowerCharAgree(s[i], t[i]);
      }
    }
  }
}
