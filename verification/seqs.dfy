/** Order-preserving selection from a sequence. */
module Seqs {

  ghost predicate StrictlyIncreasing(idx: seq<nat>) {
    forall a, b :: 0 <= a < b < |idx| ==> idx[a] < idx[b]
  }

  /** `ys` is read off `xs` at the increasing positions `idx`. */
  ghost predicate SubsequenceVia<T>(ys: seq<T>, xs: seq<T>, idx: seq<nat>) {
    && |idx| == |ys|
    && StrictlyIncreasing(idx)
    && (forall k :: 0 <= k < |idx| ==> idx[k] < |xs| && ys[k] == xs[idx[k]])
  }

  /** `ys` keeps some elements of `xs`, in their original relative order. */
  ghost predicate IsSubsequence<T>(ys: seq<T>, xs: seq<T>) {
    exists idx :: SubsequenceVia(ys, xs, idx)
  }

  /** Increasing positions into `xs` can be at most `|xs|` many. */
  lemma {:induction false} SubsequenceViaLength<T>(ys: seq<T>, xs: seq<T>, idx: seq<nat>)
    requires SubsequenceVia(ys, xs, idx)
    ensures |ys| <= |xs|
  {
    if |idx| > 0 {
      var k := |idx| - 1;
      IndexAtLeastPosition(idx, k);
      assert idx[k] < |xs|;
    }
  }

  lemma {:induction false} IndexAtLeastPosition(idx: seq<nat>, k: nat)
    requires StrictlyIncreasing(idx)
    requires k < |idx|
    ensures idx[k] >= k
  {
    if k > 0 {
      IndexAtLeastPosition(idx, k - 1);
      assert idx[k - 1] < idx[k];
    }
  }

  lemma SubsequenceLength<T>(ys: seq<T>, xs: seq<T>)
    requires IsSubsequence(ys, xs)
    ensures |ys| <= |xs|
  {
    var idx :| SubsequenceVia(ys, xs, idx);
    SubsequenceViaLength(ys, xs, idx);
  }
}
