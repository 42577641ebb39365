/** The news store: the selected category, the search text and the favourites list. */
module NewsStore {
  import opened Wrappers
  import opened Seqs
  import opened Articles

  datatype NewsState = NewsState(selectedCategory: string, searchQuery: string, favorites: seq<Article>)

  /** The state the store is created with. */
  const InitialNews: NewsState := NewsState("general", "", [])

  /** `setCategory`: replaces the category only. */
  function SetCategory(s: NewsState, category: string): (r: NewsState)
    ensures r.selectedCategory == category
    ensures r.searchQuery == s.searchQuery && r.favorites == s.favorites
  {
    s.(selectedCategory := category)
  }

  /** `setSearchQuery`: replaces the search text only. */
  function SetSearchQuery(s: NewsState, query: string): (r: NewsState)
    ensures r.searchQuery == query
    ensures r.selectedCategory == s.selectedCategory && r.favorites == s.favorites
  {
    s.(searchQuery := query)
  }

  /** `setFavorites`: replaces the whole list, whatever it held. */
  function SetFavorites(s: NewsState, favorites: seq<Article>): (r: NewsState)
    ensures r.favorites == favorites
    ensures r.selectedCategory == s.selectedCategory && r.searchQuery == s.searchQuery
  {
    s.(favorites := favorites)
  }

  /** `addFavorite`: appends at the end, even when an equal entry is already there. */
  function AddFavorite(s: NewsState, article: Article): (r: NewsState)
    ensures |r.favorites| == |s.favorites| + 1
    ensures r.favorites[..|s.favorites|] == s.favorites && r.favorites[|s.favorites|] == article
    ensures r.selectedCategory == s.selectedCategory && r.searchQuery == s.searchQuery
  {
    s.(favorites := s.favorites + [article])
  }

  /** `favs.filter((fav) => fav.articleId !== articleId)`. */
  function Without(favs: seq<Article>, articleId: ArticleId): (r: seq<Article>)
    ensures |r| <= |favs|
  {
    if favs == [] then []
    else
      var init := favs[..|favs| - 1];
      var last := favs[|favs| - 1];
      assert favs == init + [last];
      Without(init, articleId) + (if last.articleId != articleId then [last] else [])
  }

  /** `removeFavorite`: drops every entry with that id and keeps the rest in order. */
  function RemoveFavorite(s: NewsState, articleId: ArticleId): (r: NewsState)
    ensures forall a :: a in r.favorites <==> a in s.favorites && a.articleId != articleId
    ensures IsSubsequence(r.favorites, s.favorites)
    ensures |r.favorites| == |s.favorites| - Matches(s.favorites, articleId)
    ensures r.selectedCategory == s.selectedCategory && r.searchQuery == s.searchQuery
  {
    WithoutMembers(s.favorites, articleId);
    WithoutIsSubsequence(s.favorites, articleId);
    RemoveCountsMatches(s.favorites, articleId);
    s.(favorites := Without(s.favorites, articleId))
  }

  /** An entry survives the filter exactly when it was there and carries another id. */
  lemma {:induction false} WithoutMembers(favs: seq<Article>, articleId: ArticleId)
    ensures forall a :: a in Without(favs, articleId) <==> a in favs && a.articleId != articleId
  {
    if favs != [] {
      var n := |favs| - 1;
      WithoutMembers(favs[..n], articleId);
      assert favs == favs[..n] + [favs[n]];
    }
  }

  /** The filter keeps the surviving entries in their original order. */
  lemma {:induction false} WithoutIsSubsequence(favs: seq<Article>, articleId: ArticleId)
    ensures IsSubsequence(Without(favs, articleId), favs)
  {
    var idx := WithoutPositions(favs, articleId);
  }

  /** The positions the filter keeps, witnessing the subsequence. */
  lemma {:induction false} WithoutPositions(favs: seq<Article>, articleId: ArticleId) returns (idx: seq<nat>)
    ensures SubsequenceVia(Without(favs, articleId), favs, idx)
    ensures forall k :: 0 <= k < |idx| ==> idx[k] < |favs|
  {
    if favs == [] {
      idx := [];
    } else {
      var n := |favs| - 1;
      var init := favs[..n];
      var prev := WithoutPositions(init, articleId);
      assert favs == init + [favs[n]];
      if favs[n].articleId != articleId {
        idx := prev + [n];
      } else {
        idx := prev;
      }
    }
  }

  /** Filtering distributes over concatenation. */
  lemma {:induction false} WithoutAppend(xs: seq<Article>, ys: seq<Article>, articleId: ArticleId)
    ensures Without(xs + ys, articleId) == Without(xs, articleId) + Without(ys, articleId)
  {
    if ys == [] {
      assert xs + ys == xs;
    } else {
      var n := |ys| - 1;
      var zs := xs + ys;
      var tail := if ys[n].articleId != articleId then [ys[n]] else [];
      assert zs[..|zs| - 1] == xs + ys[..n] && zs[|zs| - 1] == ys[n];
      assert Without(zs, articleId) == Without(xs + ys[..n], articleId) + tail;
      assert Without(ys, articleId) == Without(ys[..n], articleId) + tail;
      WithoutAppend(xs, ys[..n], articleId);
    }
  }

  /** Removing twice is removing once. */
  lemma {:induction false} RemoveIdempotent(s: NewsState, articleId: ArticleId)
    ensures RemoveFavorite(RemoveFavorite(s, articleId), articleId) == RemoveFavorite(s, articleId)
  {
    WithoutMembers(s.favorites, articleId);
    WithoutNoMatchIsIdentity(Without(s.favorites, articleId), articleId);
  }

  /** With no entry carrying the id, removal changes nothing. */
  lemma {:induction false} WithoutNoMatchIsIdentity(favs: seq<Article>, articleId: ArticleId)
    requires forall a :: a in favs ==> a.articleId != articleId
    ensures Without(favs, articleId) == favs
  {
    if favs != [] {
      var n := |favs| - 1;
      WithoutNoMatchIsIdentity(favs[..n], articleId);
      assert favs[n] in favs;
      assert favs == favs[..n] + [favs[n]];
    }
  }

  /** Adding an article and then removing its id is the same as only removing the id. */
  lemma AddThenRemove(s: NewsState, article: Article)
    ensures RemoveFavorite(AddFavorite(s, article), article.articleId)
         == RemoveFavorite(s, article.articleId)
  {
    WithoutAppend(s.favorites, [article], article.articleId);
    assert Without([article], article.articleId) == [] by {
      assert [article][..0] == [];
    }
  }

  /** Removal takes out exactly the matching entries, so the list shrinks by their number. */
  lemma {:induction false} RemoveCountsMatches(favs: seq<Article>, articleId: ArticleId)
    ensures |Without(favs, articleId)| == |favs| - Matches(favs, articleId)
  {
    if favs != [] {
      var n := |favs| - 1;
      RemoveCountsMatches(favs[..n], articleId);
      assert favs == favs[..n] + [favs[n]];
    }
  }

  /**
   * `removeFavorite(null)` keeps a favourite that has no `articleId` at all:
   * `undefined !== null`, so only entries whose id is `null` go.
   */
  lemma RemoveNullKeepsIdless(s: NewsState, a: Article)
    requires a in s.favorites && a.articleId == Undefined
    ensures a in RemoveFavorite(s, Null).favorites
  {
  }

  /** How many entries carry `articleId`. */
  function Matches(favs: seq<Article>, articleId: ArticleId): nat {
    if favs == [] then 0
    else
      var n := |favs| - 1;
      Matches(favs[..n], articleId) + (if favs[n].articleId == articleId then 1 else 0)
  }
}
