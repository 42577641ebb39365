/**
 * `isValidEmail` and `isStrongPassword`: each regular expression is stated
 * twice, once following the pattern's structure and once as plain
 * character-class conditions, and a single-pass checker decides both.
 */
module Validators {
  import opened JsString

  // ---------------------------------------------------------------- e-mail

  /** `[^\s@]`: any character that is neither whitespace nor `@`. */
  predicate EmailPartChar(c: char) {
    !IsWhiteSpace(c) && c != '@'
  }

  /** Every position in `[lo, hi)` holds an `EmailPartChar`. */
  predicate PartBetween(s: string, lo: int, hi: int)
    requires 0 <= lo <= hi <= |s|
  {
    forall k :: lo <= k < hi ==> EmailPartChar(s[k])
  }

  /**
   * `^[^\s@]+@[^\s@]+\.[^\s@]+$` matched with the `@` at `i` and the
   * literal dot at `j`.
   */
  predicate EmailSplit(s: string, i: int, j: int) {
    0 < i && i + 1 < j && j + 1 < |s|
    && s[i] == '@' && s[j] == '.'
    && PartBetween(s, 0, i) && PartBetween(s, i + 1, j) && PartBetween(s, j + 1, |s|)
  }

  /** The pattern matches when some placement of `@` and dot fits. */
  ghost predicate MatchesEmailPattern(s: string) {
    exists i, j :: EmailSplit(s, i, j)
  }

  /**
   * The same language in words: no whitespace, exactly one `@` with
   * something before it, and a dot after it that is neither the first nor
   * the last character of the domain.
   */
  ghost predicate EmailShape(s: string) {
    (forall k :: 0 <= k < |s| ==> !IsWhiteSpace(s[k]))
    && exists i :: 0 < i < |s| && s[i] == '@'
                   && (forall k :: 0 <= k < |s| && s[k] == '@' ==> k == i)
                   && exists j :: i + 1 < j < |s| - 1 && s[j] == '.'
  }

  lemma EmailPatternIsShape(s: string)
    ensures MatchesEmailPattern(s) <==> EmailShape(s)
  {
    if MatchesEmailPattern(s) {
      var i, j :| EmailSplit(s, i, j);
      forall k | 0 <= k < |s|
        ensures !IsWhiteSpace(s[k])
      {
        if k < i {
          assert EmailPartChar(s[k]);
        } else if i < k < j {
          assert EmailPartChar(s[k]);
        } else if j < k {
          assert EmailPartChar(s[k]);
        }
      }
      assert forall k :: 0 <= k < |s| && s[k] == '@' ==> k == i;
      assert EmailShape(s);
    }
    if EmailShape(s) {
      var i :| 0 < i < |s| && s[i] == '@'
               && (forall k :: 0 <= k < |s| && s[k] == '@' ==> k == i)
               && exists j :: i + 1 < j < |s| - 1 && s[j] == '.';
      var j :| i + 1 < j < |s| - 1 && s[j] == '.';
      assert EmailSplit(s, i, j);
    }
  }

  /**
   * `isValidEmail`: one pass remembering the first `@`, whether a second
   * one occurred, and a dot placed where the pattern needs it.
   */
  method IsValidEmail(s: string) returns (ok: bool)
    ensures ok <==> EmailShape(s)
    ensures ok <==> MatchesEmailPattern(s)
  {
    var spaceFree := true;
    var at := -1;
    var secondAt := false;
    var dot := -1;
    var i := 0;
    while i < |s|
      invariant 0 <= i <= |s|
      invariant spaceFree <==> forall k :: 0 <= k < i ==> !IsWhiteSpace(s[k])
      invariant at < 0 ==> at == -1 && forall k :: 0 <= k < i ==> s[k] != '@'
      invariant at >= 0 ==> at < i && s[at] == '@' && forall k :: 0 <= k < at ==> s[k] != '@'
      invariant !secondAt ==> forall k :: 0 <= k < i && s[k] == '@' ==> k == at
      invariant secondAt ==> at >= 0 && exists k :: at < k < i && s[k] == '@'
      invariant dot >= 0 ==> at >= 0 && at + 1 < dot < i && dot < |s| - 1 && s[dot] == '.'
      invariant dot < 0 && at >= 0 ==> forall j :: at + 1 < j < i && j < |s| - 1 ==> s[j] != '.'
    {
      var c := s[i];
      if IsWhiteSpace(c) {
        spaceFree := false;
      }
      if c == '@' {
        if at < 0 {
          at := i;
        } else {
          secondAt := true;
        }
      } else if c == '.' && at >= 0 && at + 1 < i && i < |s| - 1 && dot < 0 {
        dot := i;
      }
      i := i + 1;
    }
    ok := spaceFree && at > 0 && !secondAt && dot >= 0;
    EmailPatternIsShape(s);
  }

  // -------------------------------------------------------------- password

  /** No line terminator occurs before position `k`, so `.*` can reach it. */
  predicate DotReaches(s: string, k: int)
    requires 0 <= k <= |s|
  {
    forall m :: 0 <= m < k ==> !IsLineTerminator(s[m])
  }

  /**
   * `^(?=.*[a-z])(?=.*[A-Z])(?=.*\d).{6,}$`: each lookahead finds its class
   * after a line-terminator-free stretch, and `.{6,}` covers the whole input.
   * Without the `u` flag `.` matches one UTF-16 code unit, so the six are
   * counted in code units.
   */
  ghost predicate MatchesPasswordPattern(s: string) {
    (exists k :: 0 <= k < |s| && IsAsciiLower(s[k]) && DotReaches(s, k))
    && (exists k :: 0 <= k < |s| && IsAsciiUpper(s[k]) && DotReaches(s, k))
    && (exists k :: 0 <= k < |s| && IsAsciiDigit(s[k]) && DotReaches(s, k))
    && Utf16Length(s) >= 6 && DotReaches(s, |s|)
  }

  /** The same language in words. */
  ghost predicate StrongPassword(s: string) {
    Utf16Length(s) >= 6
    && (forall k :: 0 <= k < |s| ==> !IsLineTerminator(s[k]))
    && (exists k :: 0 <= k < |s| && IsAsciiLower(s[k]))
    && (exists k :: 0 <= k < |s| && IsAsciiUpper(s[k]))
    && (exists k :: 0 <= k < |s| && IsAsciiDigit(s[k]))
  }

  lemma PasswordPatternIsStrength(s: string)
    ensures MatchesPasswordPattern(s) <==> StrongPassword(s)
  {
    if StrongPassword(s) {
      var a :| 0 <= a < |s| && IsAsciiLower(s[a]);
      var b :| 0 <= b < |s| && IsAsciiUpper(s[b]);
      var c :| 0 <= c < |s| && IsAsciiDigit(s[c]);
      assert DotReaches(s, a) && DotReaches(s, b) && DotReaches(s, c);
    }
  }

  /**
   * Length is counted in code units: five characters such as `"aA1😀😀"`,
   * the last two outside the Basic Multilingual Plane, make seven units and
   * a strong password.
   */
  lemma AstralCharsCountTwice(s: string)
    requires |s| == 5
    requires IsAsciiLower(s[0]) && IsAsciiUpper(s[1]) && IsAsciiDigit(s[2])
    requires s[3] as int > 0xFFFF && s[4] as int > 0xFFFF
    ensures Utf16Length(s) == 7
    ensures StrongPassword(s)
  {
    assert s[..1][..0] == [];
    assert Utf16Length(s[..1]) == 1;
    assert s[..2][..1] == s[..1];
    assert Utf16Length(s[..2]) == 2;
    assert s[..3][..2] == s[..2];
    assert Utf16Length(s[..3]) == 3;
    assert s[..4][..3] == s[..3];
    assert Utf16Length(s[..4]) == 5;
    assert s[..5] == s && s[..5][..4] == s[..4];
    forall k | 0 <= k < |s|
      ensures !IsLineTerminator(s[k])
    {
    }
  }

  /**
   * `isStrongPassword`: one pass collecting the three classes, any line
   * terminator, and the length in code units.
   */
  method IsStrongPassword(s: string) returns (ok: bool)
    ensures ok <==> StrongPassword(s)
    ensures ok <==> MatchesPasswordPattern(s)
  {
    var lower, upper, digit, broken := false, false, false, false;
    var units := 0;
    var i := 0;
    while i < |s|
      invariant 0 <= i <= |s|
      invariant units == Utf16Length(s[..i])
      invariant lower <==> exists k :: 0 <= k < i && IsAsciiLower(s[k])
      invariant upper <==> exists k :: 0 <= k < i && IsAsciiUpper(s[k])
      invariant digit <==> exists k :: 0 <= k < i && IsAsciiDigit(s[k])
      invariant broken <==> exists k :: 0 <= k < i && IsLineTerminator(s[k])
    {
      var c := s[i];
      lower := lower || IsAsciiLower(c);
      upper := upper || IsAsciiUpper(c);
      digit := digit || IsAsciiDigit(c);
      broken := broken || IsLineTerminator(c);
      units := units + Utf16Units(c);
      assert s[..i + 1][..i] == s[..i];
      i := i + 1;
    }
    assert s[..i] == s;
    ok := units >= 6 && lower && upper && digit && !broken;
    PasswordPatternIsStrength(s);
  }
}
