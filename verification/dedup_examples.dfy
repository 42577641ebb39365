/** Instances of deduplication: spelling variants and missing titles. */
module DedupExamples {
  import opened Wrappers
  import opened JsString
  import opened Articles
  import opened TitleNormalize
  import opened Dedup

  function Titled(t: string): Article {
    Article(Undefined, Some(t), map[])
  }

  /**
   * Titles that differ only in a run of spaces and a trailing punctuation
   * mark, such as `"hello world!"` and `"hello   world"`, share a key.
   */
  lemma SpacingAndPunctuationVariants(a: string, sp: string, b: string, p: char)
    requires a != [] && IsAsciiAlnum(a[|a| - 1])
    requires b != [] && IsAsciiAlnum(b[0])
    requires sp != [] && forall i :: 0 <= i < |sp| ==> sp[i] == ' '
    requires !KeptByStrip(p)
    ensures Normalize(a + " " + b + [p]) == Normalize(a + sp + b)
  {
    NormalizeCollapsesSpaceRun(a, sp, b);
    NormalizeIgnoresDroppedChar(a + " " + b, p, []);
    assert a + " " + b + [p] + [] == a + " " + b + [p];
    assert a + " " + b + [] == a + " " + b;
  }

  /** Of two elements with the same key only the first is kept. */
  lemma SameKeyKeepsFirst<T>(x: T, y: T, key: T -> string)
    requires key(x) == key(y)
    ensures FirstOccurrences([x, y], key) == [x]
  {
    var keys := KeysOf([x, y], key);
    assert keys[0] == key(x) && keys[1] == key(y);
    assert FirstOfKey(keys, 0) && !FirstOfKey(keys, 1);
    assert FirstPositions(keys, 1) == [0];
  }

  /** Non-empty titles are keyed by their normal form. */
  lemma TitledSameKey(s: string, t: string)
    requires s != [] && t != []
    requires Normalize(s) == Normalize(t)
    ensures TitleKey(Titled(s)) == TitleKey(Titled(t))
  {
    assert OrEmpty(Titled(s).title) == s;
    assert OrEmpty(Titled(t).title) == t;
  }

  /** `[{title: "hello world!"}, {title: "hello   world"}]` keeps only its first entry. */
  lemma VariantTitlesCollapse(a: string, sp: string, b: string, p: char)
    requires a != [] && IsAsciiAlnum(a[|a| - 1])
    requires b != [] && IsAsciiAlnum(b[0])
    requires sp != [] && forall i :: 0 <= i < |sp| ==> sp[i] == ' '
    requires !KeptByStrip(p)
    ensures FirstOccurrences([Titled(a + " " + b + [p]), Titled(a + sp + b)], TitleKey)
         == [Titled(a + " " + b + [p])]
  {
    SpacingAndPunctuationVariants(a, sp, b, p);
    TitledSameKey(a + " " + b + [p], a + sp + b);
    SameKeyKeepsFirst(Titled(a + " " + b + [p]), Titled(a + sp + b), TitleKey);
  }

  /**
   * Titles that also differ in letter case, such as `"Hello World!"` and
   * `"hello   world"`, share a key: `x` is any spelling whose lower-case
   * form is that of `a + " " + b + [p]`.
   */
  lemma CaseSpacingAndPunctuationVariants(x: string, a: string, sp: string, b: string, p: char)
    requires a != [] && IsAsciiAlnum(a[|a| - 1])
    requires b != [] && IsAsciiAlnum(b[0])
    requires sp != [] && forall i :: 0 <= i < |sp| ==> sp[i] == ' '
    requires !KeptByStrip(p)
    requires Lower(x) == Lower(a + " " + b + [p])
    ensures Normalize(x) == Normalize(a + sp + b)
  {
    NormalizeIgnoresCase(x);
    NormalizeIgnoresCase(a + " " + b + [p]);
    SpacingAndPunctuationVariants(a, sp, b, p);
  }

  /** `[{title: "Hello World!"}, {title: "hello   world"}]` keeps only its first entry. */
  lemma MixedCaseVariantTitlesCollapse(x: string, a: string, sp: string, b: string, p: char)
    requires a != [] && IsAsciiAlnum(a[|a| - 1])
    requires b != [] && IsAsciiAlnum(b[0])
    requires sp != [] && forall i :: 0 <= i < |sp| ==> sp[i] == ' '
    requires !KeptByStrip(p)
    requires Lower(x) == Lower(a + " " + b + [p])
    ensures FirstOccurrences([Titled(x), Titled(a + sp + b)], TitleKey) == [Titled(x)]
  {
    CaseSpacingAndPunctuationVariants(x, a, sp, b, p);
    assert |x| == |a + " " + b + [p]|;
    TitledSameKey(x, a + sp + b);
    SameKeyKeepsFirst(Titled(x), Titled(a + sp + b), TitleKey);
  }

  /** An article without a title and one with an empty title collapse to one entry. */
  lemma DeduplicateTitleless()
    ensures FirstOccurrences([Article(Undefined, None, map[]), Titled("")], TitleKey) == [Article(Undefined, None, map[])]
  {
    TitlelessCollapse([Article(Undefined, None, map[]), Titled("")]);
  }
}
