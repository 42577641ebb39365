/**
 * The title normalisation inside `deduplicateArticles`:
 * `toLowerCase()`, then `replace(/[^a-z0-9 ]/gi, "")`, then
 * `replace(/\s+/g, " ")`, then `trim()`.
 */
module TitleNormalize {
  import opened JsString

  /** The characters `[^a-z0-9 ]` with the `i` flag does NOT remove. */
  predicate KeptByStrip(c: char) {
    IsAsciiLower(c) || IsAsciiUpper(c) || IsAsciiDigit(c) || c == ' '
  }

  /** The characters a normalised title may contain. */
  predicate TitleChar(c: char) {
    IsAsciiLower(c) || IsAsciiDigit(c) || c == ' '
  }

  /** No two neighbouring `\s` characters. */
  predicate NoDoubleSpace(s: string) {
    forall i :: 0 <= i < |s| - 1 ==> !(IsWhiteSpace(s[i]) && IsWhiteSpace(s[i + 1]))
  }

  /** The shape every normalised title has. */
  predicate IsNormalized(t: string) {
    && (forall c :: c in t ==> TitleChar(c))
    && NoDoubleSpace(t)
    && (t == [] || (!IsWhiteSpace(t[0]) && !IsWhiteSpace(t[|t| - 1])))
  }

  /** `replace(/[^a-z0-9 ]/gi, "")`. */
  function Strip(s: string): (r: string)
    ensures forall c :: c in r ==> c in s && KeptByStrip(c)
    ensures (forall c :: c in s ==> KeptByStrip(c)) ==> r == s
  {
    if s == [] then []
    else (if KeptByStrip(s[0]) then [s[0]] else []) + Strip(s[1..])
  }

  /**
   * `replace(/\s+/g, " ")`: each maximal run of `\s` becomes one space.
   * Read left to right, `inRun` says whether the previous character was
   * `\s`: the first character of a run writes the space, the rest of the
   * run writes nothing.
   */
  function CollapseFrom(s: string, inRun: bool): string
    decreases |s|
  {
    if s == [] then []
    else if IsWhiteSpace(s[0]) then (if inRun then "" else " ") + CollapseFrom(s[1..], true)
    else [s[0]] + CollapseFrom(s[1..], false)
  }

  function Collapse(s: string): string {
    CollapseFrom(s, false)
  }

  /**
   * Collapsing keeps every non-space character and writes only single
   * spaces; inside a run it starts with a non-space, outside one it starts
   * with a space exactly when the input does; it never leaves two
   * neighbouring spaces.
   */
  lemma {:induction false} CollapseFromShape(s: string, inRun: bool)
    ensures forall c :: c in CollapseFrom(s, inRun) ==> c == ' ' || (c in s && !IsWhiteSpace(c))
    ensures forall c :: c in s && !IsWhiteSpace(c) ==> c in CollapseFrom(s, inRun)
    ensures inRun ==> CollapseFrom(s, inRun) == [] || !IsWhiteSpace(CollapseFrom(s, inRun)[0])
    ensures !inRun && s != [] ==>
              CollapseFrom(s, inRun) != [] && (IsWhiteSpace(CollapseFrom(s, inRun)[0]) <==> IsWhiteSpace(s[0]))
    ensures NoDoubleSpace(CollapseFrom(s, inRun))
    decreases |s|
  {
    if s != [] {
      var ws := IsWhiteSpace(s[0]);
      var rest := s[1..];
      CollapseFromShape(rest, ws);
      var cr := CollapseFrom(rest, ws);
      var head := if ws then (if inRun then "" else " ") else [s[0]];
      var r := CollapseFrom(s, inRun);
      assert r == head + cr;
      assert forall c :: c in rest ==> c in s;
      assert forall c :: c in s ==> c == s[0] || c in rest;
      forall i | 0 <= i < |r| - 1
        ensures !(IsWhiteSpace(r[i]) && IsWhiteSpace(r[i + 1]))
      {
        if i >= |head| {
          assert r[i] == cr[i - |head|] && r[i + 1] == cr[i + 1 - |head|];
        } else {
          assert r[i + 1] == cr[0];
        }
      }
    }
  }

  lemma CollapseShape(s: string)
    ensures forall c :: c in Collapse(s) ==> c == ' ' || (c in s && !IsWhiteSpace(c))
    ensures forall c :: c in s && !IsWhiteSpace(c) ==> c in Collapse(s)
    ensures s != [] ==> Collapse(s) != [] && (IsWhiteSpace(Collapse(s)[0]) <==> IsWhiteSpace(s[0]))
    ensures NoDoubleSpace(Collapse(s))
  {
    CollapseFromShape(s, false);
  }

  /** The normalised form of a title. */
  function Normalize(s: string): string {
    Trim(Collapse(Strip(Lower(s))))
  }

  /** Collapsing leaves alone a string whose only white space is single spaces. */
  lemma CollapseFixedPoint(s: string)
    requires NoDoubleSpace(s)
    requires forall c :: c in s && IsWhiteSpace(c) ==> c == ' '
    ensures Collapse(s) == s
  {
    assert forall i :: 0 <= i < |s| ==> s[i] in s;
    CollapseFromFixedPoint(s, false);
  }

  lemma {:induction false} CollapseFromFixedPoint(s: string, inRun: bool)
    requires NoDoubleSpace(s)
    requires forall i :: 0 <= i < |s| && IsWhiteSpace(s[i]) ==> s[i] == ' '
    requires inRun ==> s == [] || !IsWhiteSpace(s[0])
    ensures CollapseFrom(s, inRun) == s
    decreases |s|
  {
    if s != [] {
      var rest := s[1..];
      var ws := IsWhiteSpace(s[0]);
      assert forall i :: 0 <= i < |rest| ==> rest[i] == s[i + 1];
      NoDoubleSpaceTail(s);
      CollapseFromFixedPoint(rest, ws);
      if ws {
        assert CollapseFrom(s, inRun) == " " + CollapseFrom(rest, true);
      } else {
        assert CollapseFrom(s, inRun) == [s[0]] + CollapseFrom(rest, false);
      }
      assert s == [s[0]] + rest;
    }
  }

  /** Dropping the first character keeps `NoDoubleSpace`, and a leading space is followed by a non-space. */
  lemma NoDoubleSpaceTail(s: string)
    requires s != [] && NoDoubleSpace(s)
    ensures NoDoubleSpace(s[1..])
    ensures IsWhiteSpace(s[0]) && |s| > 1 ==> !IsWhiteSpace(s[1..][0])
  {
    var rest := s[1..];
    forall i | 0 <= i < |rest| - 1
      ensures !(IsWhiteSpace(rest[i]) && IsWhiteSpace(rest[i + 1]))
    {
      assert rest[i] == s[i + 1] && rest[i + 1] == s[i + 2];
    }
  }

  /**
   * A normalised title holds only `a-z`, `0-9` and space, never two
   * spaces in a row, and no space at either end.
   */
  lemma NormalizeIsNormalized(s: string)
    ensures IsNormalized(Normalize(s))
  {
    var c := Collapse(Strip(Lower(s)));
    CollapsedChars(s);
    TrimKeepsNoDoubleSpace(c);
  }

  lemma CollapsedChars(s: string)
    ensures forall ch :: ch in Collapse(Strip(Lower(s))) ==> TitleChar(ch)
    ensures NoDoubleSpace(Collapse(Strip(Lower(s))))
  {
    var st := Strip(Lower(s));
    assert forall ch :: ch in st ==> TitleChar(ch);
    CollapseShape(st);
  }

  lemma TrimKeepsNoDoubleSpace(c: string)
    requires NoDoubleSpace(c)
    ensures NoDoubleSpace(Trim(c))
  {
    var a, b := TrimRemovesOnlyEdgeSpace(c);
    var t := Trim(c);
    forall i | 0 <= i < |t| - 1
      ensures !(IsWhiteSpace(t[i]) && IsWhiteSpace(t[i + 1]))
    {
      assert t[i] == c[a + i] && t[i + 1] == c[a + i + 1];
    }
  }

  /** A normalised title is left unchanged by normalisation. */
  lemma NormalizedIsFixedPoint(t: string)
    requires IsNormalized(t)
    ensures Normalize(t) == t
  {
    StripLowerOfNormalized(t);
    CollapseOfNormalized(t);
    assert Trim(t) == t;
  }

  lemma StripLowerOfNormalized(t: string)
    requires IsNormalized(t)
    ensures Strip(Lower(t)) == t
  {
    LowerOfLower(t);
    assert forall c :: c in t ==> KeptByStrip(c) by {
      assert forall c :: c in t ==> TitleChar(c);
    }
  }

  lemma CollapseOfNormalized(t: string)
    requires IsNormalized(t)
    ensures Collapse(t) == t
  {
    assert forall c :: c in t && IsWhiteSpace(c) ==> c == ' ' by {
      assert forall c :: c in t ==> TitleChar(c);
    }
    CollapseFixedPoint(t);
  }

  /** Normalising twice is the same as normalising once. */
  lemma NormalizeIdempotent(s: string)
    ensures Normalize(Normalize(s)) == Normalize(s)
  {
    NormalizeIsNormalized(s);
    NormalizedIsFixedPoint(Normalize(s));
  }

  /** The fixed points of normalisation are exactly the normalised titles. */
  lemma NormalizeFixedPoints(t: string)
    ensures Normalize(t) == t <==> IsNormalized(t)
  {
    NormalizeIsNormalized(t);
    if IsNormalized(t) {
      NormalizedIsFixedPoint(t);
    }
  }

  /** Stripping works character by character, so it distributes over concatenation. */
  lemma {:induction false} StripAppend(a: string, b: string)
    ensures Strip(a + b) == Strip(a) + Strip(b)
    decreases |a|
  {
    if a == [] {
      assert a + b == b;
    } else {
      assert (a + b)[0] == a[0];
      assert (a + b)[1..] == a[1..] + b;
      StripAppend(a[1..], b);
    }
  }

  /** A run of white space before a non-space collapses to one space. */
  lemma CollapseSpaceRunFirst(sp: string, t: string)
    requires sp != [] && AllWhiteSpace(sp)
    requires t == [] || !IsWhiteSpace(t[0])
    ensures Collapse(sp + t) == " " + Collapse(t)
  {
    assert (sp + t)[0] == sp[0] && (sp + t)[1..] == sp[1..] + t;
    RunAbsorbed(sp[1..], t);
  }

  /** Inside a run, further white space writes nothing. */
  lemma {:induction false} RunAbsorbed(sp: string, t: string)
    requires AllWhiteSpace(sp)
    ensures CollapseFrom(sp + t, true) == CollapseFrom(t, true)
    decreases |sp|
  {
    if sp == [] {
      assert sp + t == t;
    } else {
      assert (sp + t)[0] == sp[0] && (sp + t)[1..] == sp[1..] + t;
      RunAbsorbed(sp[1..], t);
    }
  }

  lemma {:induction false} StripShorter(s: string)
    ensures |Strip(s)| <= |s|
    decreases |s|
  {
    if s != [] {
      StripShorter(s[1..]);
    }
  }

  /** An ASCII letter or digit: the characters that survive stripping and are not spaces. */
  predicate IsAsciiAlnum(c: char) {
    IsAsciiLower(c) || IsAsciiUpper(c) || IsAsciiDigit(c)
  }

  /** Collapsing splits at a boundary that follows a non-space. */
  lemma CollapseAppend(a: string, x: string)
    requires a == [] || !IsWhiteSpace(a[|a| - 1])
    ensures Collapse(a + x) == Collapse(a) + Collapse(x)
  {
    if a == [] {
      assert a + x == x;
    } else {
      CollapseFromAppend(a, x, false);
    }
  }

  lemma {:induction false} CollapseFromAppend(a: string, x: string, inRun: bool)
    requires a != [] && !IsWhiteSpace(a[|a| - 1])
    ensures CollapseFrom(a + x, inRun) == CollapseFrom(a, inRun) + Collapse(x)
    decreases |a|
  {
    var tail := a[1..];
    assert (a + x)[0] == a[0] && (a + x)[1..] == tail + x;
    if tail == [] {
      assert tail + x == x;
    } else {
      var ws := IsWhiteSpace(a[0]);
      var head := if ws then (if inRun then "" else " ") else [a[0]];
      assert tail[|tail| - 1] == a[|a| - 1];
      CollapseFromAppend(tail, x, ws);
      assert head + (CollapseFrom(tail, ws) + Collapse(x)) == (head + CollapseFrom(tail, ws)) + Collapse(x);
    }
  }

  /** Normalisation ignores letter case. */
  lemma NormalizeIgnoresCase(s: string)
    ensures Normalize(s) == Normalize(Lower(s))
  {
    LowerOfLower(Lower(s));
  }

  /** A character outside `[A-Za-z0-9 ]` has no influence on the normalised title. */
  lemma NormalizeIgnoresDroppedChar(a: string, p: char, b: string)
    requires !KeptByStrip(p)
    ensures Normalize(a + [p] + b) == Normalize(a + b)
  {
    LowerAppend(a + [p], b);
    LowerAppend(a, [p]);
    LowerAppend(a, b);
    assert Lower([p]) == [p];
    StripAppend(Lower(a) + [p], Lower(b));
    StripAppend(Lower(a), [p]);
    StripAppend(Lower(a), Lower(b));
    assert Strip([p]) == [];
    assert Strip(Lower(a)) + [] == Strip(Lower(a));
  }

  /** A run of spaces between two letters or digits normalises like a single space. */
  lemma NormalizeCollapsesSpaceRun(a: string, sp: string, b: string)
    requires a != [] && IsAsciiAlnum(a[|a| - 1])
    requires b != [] && IsAsciiAlnum(b[0])
    requires sp != [] && forall i :: 0 <= i < |sp| ==> sp[i] == ' '
    ensures Normalize(a + sp + b) == Normalize(a + " " + b)
  {
    NormalizeAroundRun(a, sp, b);
    NormalizeAroundRun(a, " ", b);
  }

  /** Normalising around a run of spaces depends only on the two sides. */
  lemma NormalizeAroundRun(a: string, sp: string, b: string)
    requires a != [] && IsAsciiAlnum(a[|a| - 1])
    requires b != [] && IsAsciiAlnum(b[0])
    requires sp != [] && forall i :: 0 <= i < |sp| ==> sp[i] == ' '
    ensures Normalize(a + sp + b) == Trim(Collapse(Strip(Lower(a))) + " " + Collapse(Strip(Lower(b))))
  {
    var A := Strip(Lower(a));
    var B := Strip(Lower(b));
    assert Strip(Lower(a + sp + b)) == A + (sp + B) by {
      SpacesSurviveStrip(sp);
      StripLowerJoin(a, sp, b);
    }
    assert Collapse(A + (sp + B)) == Collapse(A) + " " + Collapse(B) by {
      StripLowerLastAlnum(a);
      StripLowerFirstAlnum(b);
      CollapseAroundSpaceRun(A, sp, B);
    }
  }

  lemma SpacesSurviveStrip(sp: string)
    requires forall i :: 0 <= i < |sp| ==> sp[i] == ' '
    ensures Strip(Lower(sp)) == sp
  {
    LowerOfLower(sp);
  }

  /** Lower-casing and stripping distribute over a three-way concatenation. */
  lemma StripLowerJoin(a: string, m: string, b: string)
    ensures Strip(Lower(a + m + b)) == Strip(Lower(a)) + (Strip(Lower(m)) + Strip(Lower(b)))
  {
    var la, lm, lb := Lower(a), Lower(m), Lower(b);
    assert Lower(a + m + b) == la + lm + lb by {
      LowerAppend(a + m, b);
      LowerAppend(a, m);
    }
    assert Strip(la + lm + lb) == Strip(la) + Strip(lm) + Strip(lb) by {
      StripAppend(la + lm, lb);
      StripAppend(la, lm);
    }
  }

  lemma CollapseAroundSpaceRun(A: string, sp: string, B: string)
    requires A != [] && !IsWhiteSpace(A[|A| - 1])
    requires B != [] && !IsWhiteSpace(B[0])
    requires sp != [] && forall i :: 0 <= i < |sp| ==> sp[i] == ' '
    ensures Collapse(A + (sp + B)) == Collapse(A) + " " + Collapse(B)
  {
    CollapseAppend(A, sp + B);
    assert AllWhiteSpace(sp);
    CollapseSpaceRunFirst(sp, B);
  }

  /** Stripping keeps a trailing letter or digit, lower-cased. */
  lemma StripLowerLastAlnum(a: string)
    requires a != [] && IsAsciiAlnum(a[|a| - 1])
    ensures Strip(Lower(a)) != [] && !IsWhiteSpace(Strip(Lower(a))[|Strip(Lower(a))| - 1])
  {
    var n := |a| - 1;
    var c := LowerChar(a[n]);
    assert Lower(a) == Lower(a[..n]) + [c] by {
      assert a == a[..n] + [a[n]];
      LowerAppend(a[..n], [a[n]]);
    }
    var front := Strip(Lower(a[..n]));
    StripAppend(Lower(a[..n]), [c]);
    StripSingleAlnum(c);
    assert (front + [c])[|front + [c]| - 1] == c;
  }

  /** Stripping keeps a leading letter or digit, lower-cased. */
  lemma StripLowerFirstAlnum(b: string)
    requires b != [] && IsAsciiAlnum(b[0])
    ensures Strip(Lower(b)) != [] && !IsWhiteSpace(Strip(Lower(b))[0])
  {
    var c := LowerChar(b[0]);
    var rest := Lower(b[1..]);
    assert Lower(b) == [c] + rest by {
      assert b == [b[0]] + b[1..];
      LowerAppend([b[0]], b[1..]);
    }
    StripAppend([c], rest);
    StripSingleAlnum(c);
    assert (Strip([c]) + Strip(rest))[0] == c;
  }

  lemma StripSingleAlnum(c: char)
    requires IsAsciiAlnum(c)
    ensures Strip([c]) == [c] && !IsWhiteSpace(c)
  {
    assert [c][1..] == [];
  }
}
