/** The handlers of /articles. */
module ArticleController {
  import opened Wrappers
  import opened ObjectIds
  import opened ArticleModel
  import opened Http
  import Database

  /** `Article.find({ author })`: exactly the stored articles whose author is `author`, unchanged. */
  function ArticlesByAuthor(articles: map<ObjectId, Article>, author: ObjectId): (r: map<ObjectId, Article>)
    ensures forall id :: id in r <==> id in articles && articles[id].author == author
    ensures forall id | id in r :: r[id] == articles[id]
  {
    map id | id in articles && articles[id].author == author :: articles[id]
  }

  /**
   * `getAllArticles`. `find` always yields an array, which is truthy, so the
   * 400 branch is never taken; sorting on the absent `date` field leaves no
   * order to model.
   */
  function GetAllArticles(articles: map<ObjectId, Article>): (r: Response)
    ensures r.Sent? && r.status == 200 && r.body.ArticleDocuments? && r.body.documents == articles
  {
    Sent(200, ArticleDocuments(articles), KeepCookie)
  }

  /** `getArticlesByUser`: the articles of one author; an author with none gets an empty result, not an error. */
  function GetArticlesByUser(articles: map<ObjectId, Article>, author: ObjectId): (r: Response)
    ensures r.Sent? && r.status == 200 && r.body.ArticleDocuments?
    ensures r.body.documents.Keys <= articles.Keys
    ensures forall id | id in articles :: id in r.body.documents <==> articles[id].author == author
    ensures forall id | id in r.body.documents :: r.body.documents[id] == articles[id]
  {
    Sent(200, ArticleDocuments(ArticlesByAuthor(articles, author)), KeepCookie)
  }

  /**
   * `getArticle`. For a missing id the 400 answer goes out first; the 200
   * that follows it fails because the headers were already sent.
   */
  function GetArticle(articles: map<ObjectId, Article>, id: ObjectId): (r: Response)
    ensures id in articles <==> r.Sent? && r.status == 200
    ensures id in articles ==> r.body == ArticleDocument(articles[id])
    ensures id !in articles ==> r == Reply(400, "Article not found!")
  {
    if id !in articles then Reply(400, "Article not found!") else Sent(200, ArticleDocument(articles[id]), KeepCookie)
  }

  /**
   * `createArticle` as its field check evidently intends it (see
   * CreateArticleAsWritten): the author is the user `protect` admitted,
   * whatever the body says; `newId` stands for the ObjectId MongoDB assigns.
   * The author's `articles` list is not updated.
   */
  method CreateArticle(db: Database.Db, requester: ObjectId, body: ArticleBody, newId: ObjectId) returns (r: Response)
    modifies db
    ensures db.users == old(db.users)
    ensures !(Truthy(body.title) && Truthy(body.body)) ==> r == Reply(400, "Missing Field") && db.articles == old(db.articles)
    // An insert that fails is caught and only logged.
    ensures Truthy(body.title) && Truthy(body.body) && newId in old(db.articles) ==> r == Silent && db.articles == old(db.articles)
    ensures Truthy(body.title) && Truthy(body.body) && newId !in old(db.articles) ==>
              db.articles == old(db.articles)[newId := Article(requester, body.title.value, body.body.value)]
              && r == Sent(201, ArticleDocument(Article(requester, body.title.value, body.body.value)), KeepCookie)
    ensures db.articles != old(db.articles) ==>
              newId !in old(db.articles) && db.articles[newId].author == requester && SatisfiesArticleSchema(db.articles[newId])
  {
    if !Truthy(body.title) || !Truthy(body.body) {
      return Reply(400, "Missing Field");
    }
    var article := Article(requester, body.title.value, body.body.value);
    if newId in db.articles || !SatisfiesArticleSchema(article) {
      return Silent;
    }
    db.articles := db.articles[newId := article];
    r := Sent(201, ArticleDocument(article), KeepCookie);
  }

  /** The ReferenceError `createArticle` throws: its field check names variables that are never declared. */
  const UndeclaredAuthor: string := "ReferenceError: author is not defined"

  /**
   * `createArticle` as written: the check `!author || !title || !body` reads
   * undeclared names and throws before anything is stored, whatever the
   * request; Express answers 500.
   */
  method CreateArticleAsWritten(db: Database.Db, requester: ObjectId, body: ArticleBody, newId: ObjectId) returns (r: Response)
    ensures r == Uncaught(UndeclaredAuthor)
    ensures !r.Sent?
  {
    r := Uncaught(UndeclaredAuthor);
  }

  /**
   * `updateArticle`, comparing ids by value. Only the author may update; the
   * body is applied as given, so it may also replace the author.
   */
  method UpdateArticle(db: Database.Db, requester: ObjectId, id: ObjectId, body: ArticleBody) returns (r: Response)
    modifies db
    ensures db.users == old(db.users)
    ensures id !in old(db.articles) ==> r == Reply(400, "Article not found!") && db.articles == old(db.articles)
    ensures id in old(db.articles) && old(db.articles)[id].author == requester ==>
              r == Reply(201, "Article updated succesfully")
              && db.articles == old(db.articles)[id := Patched(old(db.articles)[id], body)]
    ensures id in old(db.articles) && old(db.articles)[id].author != requester ==>
              r == Reply(400, "User not allowed") && db.articles == old(db.articles)
    ensures db.articles != old(db.articles) ==> id in old(db.articles) && old(db.articles)[id].author == requester
  {
    if id !in db.articles {
      return Reply(400, "Article not found!");
    }
    var article := db.articles[id];
    if requester == article.author {
      db.articles := db.articles[id := Patched(article, body)];
      r := Reply(201, "Article updated succesfully");
    } else {
      return Reply(400, "User not allowed");
    }
  }

  /** `deleteArticle`, comparing ids by value and removing through the collection. */
  method DeleteArticle(db: Database.Db, requester: ObjectId, id: ObjectId) returns (r: Response)
    modifies db
    ensures db.users == old(db.users)
    ensures id !in old(db.articles) ==> r == Reply(400, "Article not found") && db.articles == old(db.articles)
    ensures id in old(db.articles) && old(db.articles)[id].author == requester ==>
              r == Reply(200, "Article deleted") && db.articles == old(db.articles) - {id}
    ensures id in old(db.articles) && old(db.articles)[id].author != requester ==>
              r == Reply(400, "User not allowed") && db.articles == old(db.articles)
    ensures db.articles != old(db.articles) ==> id in old(db.articles) && old(db.articles)[id].author == requester
  {
    if id !in db.articles {
      return Reply(400, "Article not found");
    }
    var article := db.articles[id];
    if requester == article.author {
      db.articles := db.articles - {id};
      r := Reply(200, "Article deleted");
    } else {
      return Reply(400, "User not allowed");
    }
  }

  /** An ObjectId instance as JavaScript holds it: `===` compares instances, not values. */
  class ObjectIdInstance {
    const value: ObjectId
    constructor (value: ObjectId)
      ensures this.value == value
    {
      this.value := value;
    }
  }

  /**
   * `updateArticle` as written. `req.user._id` comes from the document
   * `protect` loaded, `article.author` from a separate `lean()` query: two
   * distinct ObjectId instances, so `===` never holds, even for the author,
   * and the update branch is unreachable.
   */
  method UpdateArticleAsWritten(db: Database.Db, requester: ObjectId, id: ObjectId, body: ArticleBody) returns (r: Response)
    ensures id !in db.articles ==> r == Reply(400, "Article not found!")
    ensures id in db.articles ==> r == Reply(400, "User not allowed")
  {
    if id !in db.articles {
      return Reply(400, "Article not found!");
    }
    var userId := new ObjectIdInstance(requester);
    var author := new ObjectIdInstance(db.articles[id].author);
    assert userId != author;
    r := Reply(400, "User not allowed");
  }

  /**
   * `deleteArticle` as written: the same `===` between two instances never
   * holds, so even the author is refused (and the `remove()` it would call on
   * the plain object `lean()` returns does not exist).
   */
  method DeleteArticleAsWritten(db: Database.Db, requester: ObjectId, id: ObjectId) returns (r: Response)
    ensures id !in db.articles ==> r == Reply(400, "Article not found")
    ensures id in db.articles ==> r == Reply(400, "User not allowed")
  {
    if id !in db.articles {
      return Reply(400, "Article not found");
    }
    var userId := new ObjectIdInstance(requester);
    var author := new ObjectIdInstance(db.articles[id].author);
    assert userId != author;
    r := Reply(400, "User not allowed");
  }
}
