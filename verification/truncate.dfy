/** `truncateText`: a bounded prefix of a text, marked with an ellipsis when cut. */
module Truncate {
  import opened Wrappers
  import opened JsString

  /** The default bound when the caller passes none. */
  const DefaultMaxLength: int := 100

  /** The marker appended to a cut text. */
  const Ellipsis: string := "..."

  function Max(a: int, b: int): int {
    if a < b then b else a
  }

  /**
   * `s.substring(0, n)`: JavaScript clamps the end index into `[0, |s|]`,
   * so a negative bound yields the empty prefix.
   */
  function Prefix(s: string, n: int): (r: string)
    ensures n <= 0 ==> r == []
    ensures 0 <= n <= |s| ==> r == s[..n]
    ensures |s| <= n ==> r == s
  {
    if n <= 0 then [] else if n < |s| then s[..n] else s
  }

  /**
   * A falsy text (missing or empty) gives `""`; a text that fits is returned
   * as is; a longer one is cut to `maxLength` characters, trimmed, and
   * followed by `"..."`.
   */
  function TruncateText(text: Option<string>, maxLength: int): (r: string)
    ensures !Truthy(text) ==> r == ""
    ensures Truthy(text) && |text.value| <= maxLength ==> r == text.value
    ensures Truthy(text) && maxLength < |text.value| ==>
              |r| >= |Ellipsis| && r[|r| - |Ellipsis|..] == Ellipsis
    ensures Truthy(text) && maxLength < |text.value| && |r| > |Ellipsis| ==>
              !IsWhiteSpace(r[0]) && !IsWhiteSpace(r[|r| - |Ellipsis| - 1])
    ensures |r| <= Max(maxLength, 0) + |Ellipsis|
  {
    if !Truthy(text) then ""
    else if |text.value| <= maxLength then text.value
    else Trim(Prefix(text.value, maxLength)) + Ellipsis
  }

  /** `truncateText(text)` with `maxLength` omitted: the default bound applies. */
  function TruncateTextDefault(text: Option<string>): (r: string)
    ensures |r| <= DefaultMaxLength + |Ellipsis|
    ensures Truthy(text) && |text.value| <= DefaultMaxLength ==> r == text.value
    ensures !Truthy(text) ==> r == ""
  {
    TruncateText(text, DefaultMaxLength)
  }

  /**
   * A cut result is the first `maxLength` characters of the text with only
   * surrounding whitespace removed, then the ellipsis: `a` and `b` delimit
   * the part kept, everything before `a` and between `b` and the cut is
   * whitespace.
   */
  lemma CutKeepsPrefixUpToEdgeSpace(text: string, maxLength: int) returns (a: nat, b: nat)
    requires text != [] && maxLength < |text|
    ensures a <= b <= Max(maxLength, 0) < |text|
    ensures TruncateText(Some(text), maxLength) == text[a..b] + Ellipsis
    ensures AllWhiteSpace(text[..a]) && AllWhiteSpace(text[b..Max(maxLength, 0)])
    ensures a < b ==> !IsWhiteSpace(text[a]) && !IsWhiteSpace(text[b - 1])
  {
    var n := Max(maxLength, 0);
    assert Prefix(text, maxLength) == text[..n];
    a, b := TrimRemovesOnlyEdgeSpace(text[..n]);
    SlicesOfPrefix(text, n, a, b);
  }

  lemma SlicesOfPrefix(s: string, n: nat, a: nat, b: nat)
    requires a <= b <= n <= |s|
    ensures s[..n][a..b] == s[a..b]
    ensures s[..n][..a] == s[..a]
    ensures s[..n][b..] == s[b..n]
  {
  }

  /**
   * When the cut point does not fall next to whitespace, the result is
   * exactly the `maxLength`-prefix followed by `"..."`.
   */
  lemma CutAtWordIsExactPrefix(text: string, maxLength: nat)
    requires 0 < maxLength < |text|
    requires !IsWhiteSpace(text[0]) && !IsWhiteSpace(text[maxLength - 1])
    ensures TruncateText(Some(text), maxLength) == text[..maxLength] + Ellipsis
    ensures |TruncateText(Some(text), maxLength)| == maxLength + |Ellipsis|
  {
    assert Prefix(text, maxLength) == text[..maxLength];
  }
}
