/** The two MongoDB collections the handlers read and write. */
module Database {
  import opened ObjectIds
  import opened UserModel
  import opened ArticleModel

  class Db {
    var users: map<ObjectId, User>
    var articles: map<ObjectId, Article>

    /** The unique indexes on `email` and `username`, which MongoDB enforces on every write. */
    ghost predicate Valid()
      reads this
    {
      UniqueEmails(users) && UniqueUsernames(users)
    }

    constructor ()
      ensures Valid() && users == map[] && articles == map[]
    {
      users := map[];
      articles := map[];
    }
  }
}
