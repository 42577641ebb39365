/**
 * The pieces of JavaScript string semantics the frontend relies on:
 * ASCII character classes, the `\s` class, ASCII lower-casing,
 * `String.prototype.trim` and string truthiness.
 */
module JsString {
  import opened Wrappers

  predicate IsAsciiLower(c: char) { 'a' <= c <= 'z' }

  predicate IsAsciiUpper(c: char) { 'A' <= c <= 'Z' }

  /** `\d` in a regular expression without the `u` flag. */
  predicate IsAsciiDigit(c: char) { '0' <= c <= '9' }

  /** The ECMAScript LineTerminator code points; `.` does not match these. */
  predicate IsLineTerminator(c: char) {
    c == '\n' || c == '\r' || c == '\U{2028}' || c == '\U{2029}'
  }

  /** The `\s` class: ECMAScript WhiteSpace (including the Zs category) plus LineTerminator. */
  predicate IsWhiteSpace(c: char) {
    || c == '\t' || c == '\U{000B}' || c == '\U{000C}' || c == ' '
    || c == '\U{00A0}' || c == '\U{FEFF}' || c == '\U{1680}'
    || ('\U{2000}' <= c <= '\U{200A}')
    || c == '\U{202F}' || c == '\U{205F}' || c == '\U{3000}'
    || IsLineTerminator(c)
  }

  predicate AllWhiteSpace(s: string) {
    forall i :: 0 <= i < |s| ==> IsWhiteSpace(s[i])
  }

  /** `toLowerCase` restricted to ASCII: upper-case letters map down, everything else is kept. */
  function LowerChar(c: char): (r: char)
    ensures !IsAsciiUpper(r)
    ensures IsAsciiUpper(c) ==> IsAsciiLower(r) && r as int == c as int + 32
    ensures !IsAsciiUpper(c) ==> r == c
  {
    if IsAsciiUpper(c) then (c as int + 32) as char else c
  }

  function Lower(s: string): (r: string)
    ensures |r| == |s|
    ensures forall i :: 0 <= i < |r| ==> r[i] == LowerChar(s[i])
    ensures forall c :: c in r ==> !IsAsciiUpper(c)
  {
    seq(|s|, i requires 0 <= i < |s| => LowerChar(s[i]))
  }

  /** How many UTF-16 code units encode `c`: two above U+FFFF, one otherwise. */
  function Utf16Units(c: char): (n: nat)
    ensures n == 1 || n == 2
    ensures n == 2 <==> c as int > 0xFFFF
  {
    if c as int > 0xFFFF then 2 else 1
  }

  /** JavaScript's `length`: the number of UTF-16 code units. */
  function Utf16Length(s: string): (n: nat)
    ensures |s| <= n <= 2 * |s|
  {
    if s == [] then 0 else Utf16Length(s[..|s| - 1]) + Utf16Units(s[|s| - 1])
  }

  /** A string with no ASCII upper-case letter is its own lower-case form. */
  lemma LowerOfLower(s: string)
    requires forall c :: c in s ==> !IsAsciiUpper(c)
    ensures Lower(s) == s
  {
    forall i | 0 <= i < |s|
      ensures Lower(s)[i] == s[i]
    {
      assert s[i] in s;
    }
  }

  /** Lower-casing works character by character, so it distributes over concatenation. */
  lemma LowerAppend(a: string, b: string)
    ensures Lower(a + b) == Lower(a) + Lower(b)
  {
    assert forall i :: 0 <= i < |a + b| ==> Lower(a + b)[i] == (Lower(a) + Lower(b))[i];
  }

  /** Number of `\s` characters at the start of `s`. */
  function LeadingSpace(s: string): (n: nat)
    ensures n <= |s|
    ensures forall i :: 0 <= i < n ==> IsWhiteSpace(s[i])
    ensures n < |s| ==> !IsWhiteSpace(s[n])
  {
    if s != [] && IsWhiteSpace(s[0]) then 1 + LeadingSpace(s[1..]) else 0
  }

  /** Number of `\s` characters at the end of `s`. */
  function TrailingSpace(s: string): (n: nat)
    ensures n <= |s|
    ensures forall i :: |s| - n <= i < |s| ==> IsWhiteSpace(s[i])
    ensures n < |s| ==> !IsWhiteSpace(s[|s| - n - 1])
  {
    if s != [] && IsWhiteSpace(s[|s| - 1]) then 1 + TrailingSpace(s[..|s| - 1]) else 0
  }

  /** `String.prototype.trim`: drops leading and trailing `\s` characters. */
  function Trim(s: string): (r: string)
    ensures r == [] || (!IsWhiteSpace(r[0]) && !IsWhiteSpace(r[|r| - 1]))
    ensures r == [] <==> AllWhiteSpace(s)
    ensures forall c :: c in r ==> c in s
    ensures s == [] || (!IsWhiteSpace(s[0]) && !IsWhiteSpace(s[|s| - 1])) ==> r == s
  {
    var a := LeadingSpace(s);
    var b := |s| - TrailingSpace(s[a..]);
    assert a == |s| ==> AllWhiteSpace(s);
    assert a < |s| ==> a < b && !IsWhiteSpace(s[b - 1]) by {
      if a < |s| {
        assert s[a..][|s[a..]| - TrailingSpace(s[a..]) - 1] == s[b - 1];
      }
    }
    s[a..b]
  }

  /** Trim removes only white space, and only at the two ends: the result is `s[a..b]`. */
  lemma TrimRemovesOnlyEdgeSpace(s: string) returns (a: nat, b: nat)
    ensures a <= b <= |s|
    ensures Trim(s) == s[a..b]
    ensures AllWhiteSpace(s[..a]) && AllWhiteSpace(s[b..])
    ensures a < b ==> !IsWhiteSpace(s[a]) && !IsWhiteSpace(s[b - 1])
  {
    a := LeadingSpace(s);
    var t := TrailingSpace(s[a..]);
    b := |s| - t;
    assert forall i :: b <= i < |s| ==> s[i] == s[a..][i - a];
  }

  /** JavaScript truthiness of a possibly missing string: present and non-empty. */
  predicate Truthy(o: Option<string>) {
    o.Some? && o.value != ""
  }

  /** The expression `o || ""`. */
  function OrEmpty(o: Option<string>): (r: string)
    ensures Truthy(o) ==> Some(r) == o
    ensures !Truthy(o) ==> r == ""
  {
    if Truthy(o) then o.value else ""
  }
}
