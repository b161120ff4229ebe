/**
 * The JavaScript string primitives the core relies on, on sequences of
 * characters: `toLowerCase` / `toUpperCase` (ASCII letters only),
 * `endsWith`, `padStart` and `trim` with the ECMAScript white-space set.
 */
module JsString {

  predicate IsAsciiUpper(c: char) { 'A' <= c <= 'Z' }

  predicate IsAsciiLower(c: char) { 'a' <= c <= 'z' }

  /** `\d` in a regular expression: an ASCII decimal digit. */
  predicate IsDigit(c: char) { '0' <= c <= '9' }

  function LowerChar(c: char): (r: char)
    ensures !IsAsciiUpper(r)
    ensures IsAsciiUpper(c) ==> r as int == c as int + 32
    ensures !IsAsciiUpper(c) ==> r == c
  {
    if IsAsciiUpper(c) then (c as int + 32) as char else c
  }

  function UpperChar(c: char): (r: char)
    ensures !IsAsciiLower(r)
    ensures IsAsciiLower(c) ==> r as int == c as int - 32
    ensures !IsAsciiLower(c) ==> r == c
  {
    if IsAsciiLower(c) then (c as int - 32) as char else c
  }

  /** `s.toLowerCase()` for ASCII letters; every other character is kept. */
  function ToLower(s: string): (r: string)
    ensures |r| == |s|
    ensures forall i :: 0 <= i < |s| ==> r[i] == LowerChar(s[i])
  {
    if s == [] then [] else [LowerChar(s[0])] + ToLower(s[1..])
  }

  /** `s.toUpperCase()` for ASCII letters; every other character is kept. */
  function ToUpper(s: string): (r: string)
    ensures |r| == |s|
    ensures forall i :: 0 <= i < |s| ==> r[i] == UpperChar(s[i])
  {
    if s == [] then [] else [UpperChar(s[0])] + ToUpper(s[1..])
  }

  /** Upper-casing then lower-casing gives the lower-case form of the input. */
  lemma LowerOfUpper(s: string)
    ensures ToLower(ToUpper(s)) == ToLower(s)
  {
    var a, b := ToLower(ToUpper(s)), ToLower(s);
    assert |a| == |b|;
    forall i | 0 <= i < |s| ensures a[i] == b[i] {
      var c := s[i];
      if IsAsciiLower(c) {
        assert LowerChar(UpperChar(c)) as int == c as int;
      }
    }
  }

  /** Text without upper-case ASCII letters is its own lower-case form. */
  lemma {:induction false} ToLowerOfLowerCase(s: string)
    requires forall i :: 0 <= i < |s| ==> !IsAsciiUpper(s[i])
    ensures ToLower(s) == s
  {
    assert forall i :: 0 <= i < |s| ==> ToLower(s)[i] == s[i];
  }

  /** `s.endsWith(suffix)`. */
  predicate EndsWith(s: string, suffix: string) {
    |suffix| <= |s| && s[|s| - |suffix|..] == suffix
  }

  /** `n` copies of `c`. */
  function Repeat(c: char, n: nat): (r: string)
    ensures |r| == n && forall i :: 0 <= i < n ==> r[i] == c
  {
    if n == 0 then [] else [c] + Repeat(c, n - 1)
  }

  /** `s.padStart(width, fill)`: `fill` repeated on the left up to `width` characters. */
  function PadStart(s: string, width: nat, fill: char): (r: string)
    ensures |r| == if |s| < width then width else |s|
    ensures r[|r| - |s|..] == s
    ensures forall i :: 0 <= i < |r| - |s| ==> r[i] == fill
  {
    if |s| < width then Repeat(fill, width - |s|) + s else s
  }

  /** ECMAScript WhiteSpace and LineTerminator code points, which `trim` removes. */
  predicate IsJsWhitespace(c: char) {
    var u := c as int;
    (0x09 <= u <= 0x0D) || u == 0x20 || u == 0xA0 || u == 0x1680 ||
    (0x2000 <= u <= 0x200A) || u == 0x2028 || u == 0x2029 || u == 0x202F ||
    u == 0x205F || u == 0x3000 || u == 0xFEFF
  }

  /** `s` without its leading white space. */
  function TrimStart(s: string): string
  {
    if s != [] && IsJsWhitespace(s[0]) then TrimStart(s[1..]) else s
  }

  /** What is left is a suffix of `s`, everything cut is white space, and it does not start with white space. */
  lemma {:induction false} TrimStartMeaning(s: string)
    ensures var r := TrimStart(s);
      |r| <= |s| && r == s[|s| - |r|..] &&
      (forall i :: 0 <= i < |s| - |r| ==> IsJsWhitespace(s[i])) &&
      (r == [] || !IsJsWhitespace(r[0]))
  {
    if s != [] && IsJsWhitespace(s[0]) {
      var tail := s[1..];
      TrimStartMeaning(tail);
      var r := TrimStart(tail);
      assert tail[|tail| - |r|..] == s[|s| - |r|..];
      forall i | 1 <= i < |s| - |r| ensures IsJsWhitespace(s[i]) {
        assert s[i] == tail[i - 1];
      }
    }
  }

  /** `s` without its trailing white space. */
  function TrimEnd(s: string): string
  {
    if s != [] && IsJsWhitespace(s[|s| - 1]) then TrimEnd(s[..|s| - 1]) else s
  }

  /** What is left is a prefix of `s`, everything cut is white space, and it does not end with white space. */
  lemma {:induction false} TrimEndMeaning(s: string)
    ensures var r := TrimEnd(s);
      |r| <= |s| && r == s[..|r|] &&
      (forall i :: |r| <= i < |s| ==> IsJsWhitespace(s[i])) &&
      (r == [] || !IsJsWhitespace(r[|r| - 1]))
  {
    if s != [] && IsJsWhitespace(s[|s| - 1]) {
      var init := s[..|s| - 1];
      TrimEndMeaning(init);
      var r := TrimEnd(init);
      assert init[..|r|] == s[..|r|];
      forall i | |r| <= i < |s| - 1 ensures IsJsWhitespace(s[i]) {
        assert s[i] == init[i];
      }
    }
  }

  /** Text that neither starts nor ends with white space is left as it is. */
  lemma TrimKeepsTrimmed(r: string)
    requires r != [] && !IsJsWhitespace(r[0]) && !IsJsWhitespace(r[|r| - 1])
    ensures Trim(r) == r
  {
    assert TrimStart(r) == r;
  }

  /** `s.trim()`. */
  function Trim(s: string): string
  {
    TrimEnd(TrimStart(s))
  }

  /**
   * `trim` cuts white space from the two ends and nothing else: what is left
   * is the slice of `s` from `|s| - |TrimStart(s)|`, with white space before
   * and after it, and it neither starts nor ends with white space.
   */
  lemma TrimMeaning(s: string)
    ensures var r, k := Trim(s), |s| - |TrimStart(s)|;
      0 <= k <= k + |r| <= |s| && r == s[k..k + |r|] &&
      (forall i :: 0 <= i < k ==> IsJsWhitespace(s[i])) &&
      (forall i :: k + |r| <= i < |s| ==> IsJsWhitespace(s[i])) &&
      (r == [] || (!IsJsWhitespace(r[0]) && !IsJsWhitespace(r[|r| - 1])))
  {
    var t := TrimStart(s);
    var r := TrimEnd(t);
    var k := |s| - |t|;
    assert t == s[k..] && forall i :: 0 <= i < k ==> IsJsWhitespace(s[i]) by {
      TrimStartMeaning(s);
    }
    assert r == t[..|r|] && forall i :: |r| <= i < |t| ==> IsJsWhitespace(t[i]) by {
      TrimEndMeaning(t);
    }
    assert r == s[k..k + |r|];
    forall i | k + |r| <= i < |s| ensures IsJsWhitespace(s[i]) {
      assert s[i] == t[i - k];
    }
    assert r == [] || !IsJsWhitespace(r[|r| - 1]) by {
      TrimEndMeaning(t);
    }
    assert r == [] || !IsJsWhitespace(r[0]) by {
      TrimStartMeaning(s);
      if r != [] {
        assert r[0] == t[0];
      }
    }
  }
}
