/**
 * `deduplicateArticles`: keep the first article of every normalised title.
 * The scan itself is stated for any key function; the articles instance
 * uses the normalised title as key.
 */
module Dedup {
  import opened Wrappers
  import opened JsString
  import opened Seqs
  import opened Articles
  import opened TitleNormalize

  /** `normalize(article.title || "")`: the key two articles are compared by. */
  function TitleKey(a: Article): string {
    Normalize(OrEmpty(a.title))
  }

  /** The key of every element, position by position. */
  function KeysOf<T>(xs: seq<T>, key: T -> string): (keys: seq<string>)
    ensures |keys| == |xs|
    ensures forall i :: 0 <= i < |xs| ==> keys[i] == key(xs[i])
  {
    seq(|xs|, i requires 0 <= i < |xs| => key(xs[i]))
  }

  /** Position `i` holds the first occurrence of its key. */
  predicate FirstOfKey(keys: seq<string>, i: nat)
    requires i < |keys|
  {
    forall j :: 0 <= j < i ==> keys[j] != keys[i]
  }

  /** The first-occurrence positions below `n`, in ascending order. */
  function FirstPositions(keys: seq<string>, n: nat): (idx: seq<nat>)
    requires n <= |keys|
    ensures forall k :: 0 <= k < |idx| ==> idx[k] < n
  {
    if n == 0 then []
    else
      var prev := FirstPositions(keys, n - 1);
      if FirstOfKey(keys, n - 1) then prev + [n - 1] else prev
  }

  /** The positions are exactly the first occurrences below `n`, in ascending order. */
  lemma {:induction false} FirstPositionsSpec(keys: seq<string>, n: nat)
    requires n <= |keys|
    ensures forall k :: 0 <= k < |FirstPositions(keys, n)| ==> FirstOfKey(keys, FirstPositions(keys, n)[k])
    ensures forall i :: 0 <= i < n && FirstOfKey(keys, i) ==> i in FirstPositions(keys, n)
    ensures StrictlyIncreasing(FirstPositions(keys, n))
  {
    if n > 0 {
      FirstPositionsSpec(keys, n - 1);
    }
  }

  /** The keys found below position `n`: the `seen` set of the scan. */
  function KeysBefore(keys: seq<string>, n: nat): set<string>
    requires n <= |keys|
  {
    if n == 0 then {} else KeysBefore(keys, n - 1) + {keys[n - 1]}
  }

  /** A key is in `KeysBefore(keys, n)` exactly when it occurs below `n`. */
  lemma {:induction false} KeysBeforeMembers(keys: seq<string>, n: nat)
    requires n <= |keys|
    ensures forall x :: x in KeysBefore(keys, n) <==> exists j :: 0 <= j < n && keys[j] == x
  {
    if n > 0 {
      KeysBeforeMembers(keys, n - 1);
    }
  }

  /** The elements of `xs` at positions `idx`. */
  function Select<T>(xs: seq<T>, idx: seq<nat>): (r: seq<T>)
    requires forall k :: 0 <= k < |idx| ==> idx[k] < |xs|
    ensures |r| == |idx|
    ensures forall k :: 0 <= k < |idx| ==> r[k] == xs[idx[k]]
  {
    seq(|idx|, k requires 0 <= k < |idx| => xs[idx[k]])
  }

  /**
   * The reference definition: the elements standing at first-occurrence
   * positions of their keys, in input order.
   */
  function FirstOccurrences<T>(xs: seq<T>, key: T -> string): seq<T> {
    Select(xs, FirstPositions(KeysOf(xs, key), |xs|))
  }

  /**
   * The `filter` with a `seen` set: one pass, keeping an element when its
   * key has not been seen yet.
   */
  method KeepFirstByKey<T>(xs: seq<T>, key: T -> string) returns (kept: seq<T>)
    ensures kept == FirstOccurrences(xs, key)
  {
    ghost var keys := KeysOf(xs, key);
    kept := [];
    var seen: set<string> := {};
    var i := 0;
    while i < |xs|
      invariant 0 <= i <= |xs|
      invariant seen == KeysBefore(keys, i)
      invariant kept == Select(xs, FirstPositions(keys, i))
    {
      var k := key(xs[i]);
      ScanStep(xs, keys, i);
      if k !in seen {
        seen := seen + {k};
        kept := kept + [xs[i]];
      }
      i := i + 1;
    }
  }

  /** The three properties the scan promises, for the reference definition. */
  lemma FirstOccurrencesSpec<T>(xs: seq<T>, key: T -> string) returns (kept: seq<T>)
    ensures kept == FirstOccurrences(xs, key)
    ensures IsSubsequence(kept, xs) && |kept| <= |xs|
    ensures forall a, b :: 0 <= a < b < |kept| ==> key(kept[a]) != key(kept[b])
    ensures forall i :: 0 <= i < |xs| ==> exists k :: 0 <= k < |kept| && key(kept[k]) == key(xs[i])
  {
    kept := FirstOccurrences(xs, key);
    FirstOccurrencesIsSubsequence(xs, key);
    FirstOccurrencesKeysDistinct(xs, key);
    FirstOccurrencesKeepEveryKey(xs, key);
  }

  /**
   * One step of the scan: the key joins the seen set, and the element is
   * kept exactly when its key was not seen before.
   */
  lemma ScanStep<T>(xs: seq<T>, keys: seq<string>, i: nat)
    requires |keys| == |xs| && i < |xs|
    ensures KeysBefore(keys, i + 1) == KeysBefore(keys, i) + {keys[i]}
    ensures Select(xs, FirstPositions(keys, i + 1))
         == Select(xs, FirstPositions(keys, i)) + (if keys[i] in KeysBefore(keys, i) then [] else [xs[i]])
  {
    ScanStepSeen(keys, i);
    ScanStepKept(xs, keys, i);
  }

  /** A key is new to the scan exactly at its first occurrence. */
  lemma ScanStepSeen(keys: seq<string>, i: nat)
    requires i < |keys|
    ensures keys[i] in KeysBefore(keys, i) <==> !FirstOfKey(keys, i)
  {
    KeysBeforeMembers(keys, i);
  }

  /** The element at a first occurrence is appended; any other is skipped. */
  lemma ScanStepKept<T>(xs: seq<T>, keys: seq<string>, i: nat)
    requires |keys| == |xs| && i < |xs|
    ensures Select(xs, FirstPositions(keys, i + 1))
         == Select(xs, FirstPositions(keys, i)) + (if FirstOfKey(keys, i) then [xs[i]] else [])
  {
    var prev := FirstPositions(keys, i);
    if FirstOfKey(keys, i) {
      assert Select(xs, prev + [i]) == Select(xs, prev) + [xs[i]];
    }
  }

  /** The result keeps input elements in input order, so it is no longer than the input. */
  lemma FirstOccurrencesIsSubsequence<T>(xs: seq<T>, key: T -> string)
    ensures IsSubsequence(FirstOccurrences(xs, key), xs)
    ensures |FirstOccurrences(xs, key)| <= |xs|
  {
    var idx := FirstPositions(KeysOf(xs, key), |xs|);
    FirstPositionsSpec(KeysOf(xs, key), |xs|);
    assert SubsequenceVia(FirstOccurrences(xs, key), xs, idx);
    SubsequenceLength(FirstOccurrences(xs, key), xs);
  }

  /** No two kept elements share a key. */
  lemma FirstOccurrencesKeysDistinct<T>(xs: seq<T>, key: T -> string)
    ensures forall a, b :: 0 <= a < b < |FirstOccurrences(xs, key)| ==>
              key(FirstOccurrences(xs, key)[a]) != key(FirstOccurrences(xs, key)[b])
  {
    var keys := KeysOf(xs, key);
    var idx := FirstPositions(keys, |xs|);
    FirstPositionsSpec(keys, |xs|);
    var r := FirstOccurrences(xs, key);
    forall a, b | 0 <= a < b < |r|
      ensures key(r[a]) != key(r[b])
    {
      assert idx[a] < idx[b] && FirstOfKey(keys, idx[b]);
      assert keys[idx[a]] != keys[idx[b]];
    }
  }

  /** Every key has an earliest position holding it. */
  lemma {:induction false} EarliestWithKey(keys: seq<string>, i: nat) returns (j: nat)
    requires i < |keys|
    ensures j <= i && FirstOfKey(keys, j) && keys[j] == keys[i]
    decreases i
  {
    if FirstOfKey(keys, i) {
      j := i;
    } else {
      var j' :| 0 <= j' < i && keys[j'] == keys[i];
      j := EarliestWithKey(keys, j');
    }
  }

  /** Every key of the input is kept. */
  lemma FirstOccurrencesKeepEveryKey<T>(xs: seq<T>, key: T -> string)
    ensures forall i :: 0 <= i < |xs| ==>
              exists k :: 0 <= k < |FirstOccurrences(xs, key)| && key(FirstOccurrences(xs, key)[k]) == key(xs[i])
  {
    var keys := KeysOf(xs, key);
    var idx := FirstPositions(keys, |xs|);
    FirstPositionsSpec(keys, |xs|);
    var r := FirstOccurrences(xs, key);
    forall i | 0 <= i < |xs|
      ensures exists k :: 0 <= k < |r| && key(r[k]) == key(xs[i])
    {
      var j := EarliestWithKey(keys, i);
      assert j in idx;
      var k :| 0 <= k < |idx| && idx[k] == j;
      assert r[k] == xs[j];
      assert key(r[k]) == keys[j];
    }
  }

  /** `a` stands in `xs` at the first occurrence of its key. */
  ghost predicate IsFirstOfItsKey<T>(xs: seq<T>, key: T -> string, a: T) {
    exists i :: 0 <= i < |xs| && FirstOfKey(KeysOf(xs, key), i) && xs[i] == a
  }

  /**
   * Each kept element stands at the first occurrence of its key, and the
   * element at each first occurrence is kept.
   */
  lemma FirstOccurrencesAreFirsts<T>(xs: seq<T>, key: T -> string)
    ensures forall k :: 0 <= k < |FirstOccurrences(xs, key)| ==>
              IsFirstOfItsKey(xs, key, FirstOccurrences(xs, key)[k])
    ensures forall i :: 0 <= i < |xs| && FirstOfKey(KeysOf(xs, key), i) ==> xs[i] in FirstOccurrences(xs, key)
  {
    var keys := KeysOf(xs, key);
    var idx := FirstPositions(keys, |xs|);
    FirstPositionsSpec(keys, |xs|);
    var r := FirstOccurrences(xs, key);
    forall k | 0 <= k < |r|
      ensures IsFirstOfItsKey(xs, key, r[k])
    {
      assert FirstOfKey(keys, idx[k]) && r[k] == xs[idx[k]];
    }
    forall i | 0 <= i < |xs| && FirstOfKey(keys, i)
      ensures xs[i] in r
    {
      var k :| 0 <= k < |idx| && idx[k] == i;
      assert r[k] == xs[i];
    }
  }

  /**
   * `deduplicateArticles`: the first article of every normalised title,
   * in input order.
   */
  method DeduplicateArticles(articles: seq<Article>) returns (kept: seq<Article>)
    ensures kept == FirstOccurrences(articles, TitleKey)
    ensures IsSubsequence(kept, articles) && |kept| <= |articles|
    ensures forall a, b :: 0 <= a < b < |kept| ==> TitleKey(kept[a]) != TitleKey(kept[b])
    ensures forall i :: 0 <= i < |articles| ==>
              exists k :: 0 <= k < |kept| && TitleKey(kept[k]) == TitleKey(articles[i])
  {
    kept := KeepFirstByKey(articles, TitleKey);
    ghost var reference := FirstOccurrencesSpec(articles, TitleKey);
  }

  /**
   * A missing or empty title normalises to "", so when no article has a
   * title, only the first article survives.
   */
  lemma TitlelessCollapse(xs: seq<Article>)
    requires |xs| > 0
    requires forall i :: 0 <= i < |xs| ==> !Truthy(xs[i].title)
    ensures FirstOccurrences(xs, TitleKey) == [xs[0]]
  {
    forall i | 0 <= i < |xs|
      ensures TitleKey(xs[i]) == TitleKey(xs[0])
    {
      assert OrEmpty(xs[i].title) == OrEmpty(xs[0].title);
    }
    OneKeyKeepsFirst(xs, TitleKey);
  }

  /** When every element has the same key, only the first is kept. */
  lemma OneKeyKeepsFirst<T>(xs: seq<T>, key: T -> string)
    requires |xs| > 0
    requires forall i :: 0 <= i < |xs| ==> key(xs[i]) == key(xs[0])
    ensures FirstOccurrences(xs, key) == [xs[0]]
  {
    var keys := KeysOf(xs, key);
    var idx := FirstPositions(keys, |xs|);
    FirstPositionsSpec(keys, |xs|);
    assert FirstOfKey(keys, 0);
    assert 0 in idx;
    forall k | 0 <= k < |idx|
      ensures idx[k] == 0
    {
      assert FirstOfKey(keys, idx[k]);
      assert keys[0] == keys[idx[k]];
    }
    IndexAtLeastPosition(idx, |idx| - 1);
  }
}
