/** The `Article` schema. */
module ArticleModel {
  import opened Wrappers
  import opened ObjectIds

  /**
   * A stored article. The schema's options key is spelled `timestapms`, so
   * Mongoose adds no timestamps and an article has no date field.
   */
  datatype Article = Article(author: ObjectId, title: string, body: string)

  /** The `required` validators on create: `author` is always present here; title and body must be non-empty. */
  predicate SatisfiesArticleSchema(a: Article) {
    a.title != "" && a.body != ""
  }

  /** The JSON body of an articles request; every field may be absent. */
  datatype ArticleBody = ArticleBody(author: Option<ObjectId>, title: Option<string>, body: Option<string>)

  /**
   * `findByIdAndUpdate(id, body)`: fields present in the body replace the
   * stored ones, `author` included; an empty body changes nothing and a full
   * one replaces the whole article.
   */
  function Patched(a: Article, b: ArticleBody): (r: Article)
    ensures b == ArticleBody(None, None, None) ==> r == a
    ensures b.author.Some? && b.title.Some? && b.body.Some? ==> r == Article(b.author.value, b.title.value, b.body.value)
  {
    Article(
      if b.author.Some? then b.author.value else a.author,
      if b.title.Some? then b.title.value else a.title,
      if b.body.Some? then b.body.value else a.body)
  }

  /**
   * `findByIdAndUpdate` runs no validators: an edit keeps a valid article
   * valid exactly when it sets neither the title nor the body to "".
   */
  lemma PatchedKeepsSchema(a: Article, b: ArticleBody)
    requires SatisfiesArticleSchema(a)
    ensures SatisfiesArticleSchema(Patched(a, b)) <==> b.title != Some("") && b.body != Some("")
  {
  }
}
