/** The article records the frontend passes around. */
module Articles {
  import opened Wrappers

  /**
   * An article identifier as JavaScript sees it: a missing property reads
   * `undefined`, the backend may send `null`, and otherwise it is a string.
   * Strict (in)equality `!==` tells all three apart, exactly as datatype
   * equality does.
   */
  datatype ArticleId = Undefined | Null | Id(value: string)

  /**
   * An article as received from the backend or held as a favourite.
   * `title` may be missing; `details` stands for every other display
   * field, which this layer never inspects.
   */
  datatype Article = Article(articleId: ArticleId, title: Option<string>, details: map<string, string>)
}
