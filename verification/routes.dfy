/**
 * The private routes: `protect` runs first, and the handler runs only when it
 * calls `next()`, with `req.user` set to the admitted user. The article routes
 * run the corrected article handlers (`CreateArticle`, `UpdateArticle`,
 * `DeleteArticle`); with the handlers as written, adding an article always
 * fails and editing or deleting always refuses (see the `AsWritten` members
 * of ArticleController).
 */
module Routes {
  import opened Wrappers
  import opened ObjectIds
  import opened UserModel
  import opened ArticleModel
  import opened Http
  import opened AuthMiddleware
  import Database
  import UserController
  import ArticleController

  /** Some user's live session is presented: the gate will call `next()`. */
  ghost predicate Authenticated(users: map<ObjectId, User>, authorization: Option<string>, cookie: Option<string>, nowMs: nat) {
    exists uid :: Admits(users, authorization, cookie, nowMs, uid)
  }

  /** A response the gate sends when it refuses. */
  predicate GateRefusal(r: Response) {
    r == Reply(400, "Access Token not found") || r == Reply(400, "Access not allowed") || r == Reply(401, "User not allowed")
  }

  /** POST /articles/add, on the corrected `createArticle`. */
  method AddArticle(db: Database.Db, authorization: Option<string>, cookie: Option<string>, nowMs: nat, body: ArticleBody, newId: ObjectId)
    returns (r: Response)
    modifies db
    ensures db.users == old(db.users)
    ensures !Authenticated(old(db.users), authorization, cookie, nowMs) ==> GateRefusal(r) && db.articles == old(db.articles)
    ensures forall uid | Admits(old(db.users), authorization, cookie, nowMs, uid) ::
              Truthy(body.title) && Truthy(body.body) && newId !in old(db.articles) ==>
                db.articles == old(db.articles)[newId := Article(uid, body.title.value, body.body.value)]
                && r.Sent? && r.status == 201
    ensures db.articles != old(db.articles) ==>
              newId !in old(db.articles) && newId in db.articles
              && Admits(old(db.users), authorization, cookie, nowMs, db.articles[newId].author)
  {
    var gate := Protect(db, authorization, cookie, nowMs);
    if gate.Reject? {
      return gate.response;
    }
    r := ArticleController.CreateArticle(db, gate.user.id, body, newId);
  }

  /** PUT /articles/edit/:id, on the corrected `updateArticle`. */
  method EditArticle(db: Database.Db, authorization: Option<string>, cookie: Option<string>, nowMs: nat, id: ObjectId, body: ArticleBody)
    returns (r: Response)
    modifies db
    ensures db.users == old(db.users)
    ensures !Authenticated(old(db.users), authorization, cookie, nowMs) ==> GateRefusal(r) && db.articles == old(db.articles)
    ensures forall uid | Admits(old(db.users), authorization, cookie, nowMs, uid) && id in old(db.articles) ::
              if old(db.articles)[id].author == uid
              then r == Reply(201, "Article updated succesfully")
                   && db.articles == old(db.articles)[id := ArticleModel.Patched(old(db.articles)[id], body)]
              else r == Reply(400, "User not allowed") && db.articles == old(db.articles)
    // Only the author's live session changes an article.
    ensures db.articles != old(db.articles) ==>
              id in old(db.articles) && Admits(old(db.users), authorization, cookie, nowMs, old(db.articles)[id].author)
  {
    var gate := Protect(db, authorization, cookie, nowMs);
    if gate.Reject? {
      return gate.response;
    }
    r := ArticleController.UpdateArticle(db, gate.user.id, id, body);
  }

  /** DELETE /articles/delete/:id, on the corrected `deleteArticle`. */
  method RemoveArticle(db: Database.Db, authorization: Option<string>, cookie: Option<string>, nowMs: nat, id: ObjectId)
    returns (r: Response)
    modifies db
    ensures db.users == old(db.users)
    ensures !Authenticated(old(db.users), authorization, cookie, nowMs) ==> GateRefusal(r) && db.articles == old(db.articles)
    ensures forall uid | Admits(old(db.users), authorization, cookie, nowMs, uid) && id in old(db.articles) ::
              if old(db.articles)[id].author == uid
              then r == Reply(200, "Article deleted") && db.articles == old(db.articles) - {id}
              else r == Reply(400, "User not allowed") && db.articles == old(db.articles)
    ensures db.articles != old(db.articles) ==>
              id in old(db.articles) && Admits(old(db.users), authorization, cookie, nowMs, old(db.articles)[id].author)
  {
    var gate := Protect(db, authorization, cookie, nowMs);
    if gate.Reject? {
      return gate.response;
    }
    r := ArticleController.DeleteArticle(db, gate.user.id, id);
  }

  /** GET /users/me */
  method Me(db: Database.Db, authorization: Option<string>, cookie: Option<string>, nowMs: nat) returns (r: Response)
    ensures !Authenticated(db.users, authorization, cookie, nowMs) ==> GateRefusal(r)
    ensures forall uid | Admits(db.users, authorization, cookie, nowMs, uid) ::
              r == Sent(200, UserDocument(uid, db.users[uid]), KeepCookie)
  {
    var gate := Protect(db, authorization, cookie, nowMs);
    if gate.Reject? {
      return gate.response;
    }
    r := UserController.GetCurrentUser(db, gate.user.id);
  }

  /** PUT /users/edit/:id: any live session may edit any user. */
  method EditUser(db: Database.Db, authorization: Option<string>, cookie: Option<string>, nowMs: nat, id: ObjectId, body: UserBody)
    returns (r: Response)
    requires db.Valid()
    modifies db
    ensures db.Valid() && db.articles == old(db.articles)
    ensures !Authenticated(old(db.users), authorization, cookie, nowMs) ==> GateRefusal(r) && db.users == old(db.users)
    ensures Authenticated(old(db.users), authorization, cookie, nowMs) && id in old(db.users)
            && UniqueEmails(old(db.users)[id := UserModel.Patched(old(db.users)[id], body)])
            && UniqueUsernames(old(db.users)[id := UserModel.Patched(old(db.users)[id], body)])
            ==> r == Reply(200, "User updated") && db.users == old(db.users)[id := UserModel.Patched(old(db.users)[id], body)]
    ensures db.users != old(db.users) ==> Authenticated(old(db.users), authorization, cookie, nowMs)
  {
    var gate := Protect(db, authorization, cookie, nowMs);
    if gate.Reject? {
      return gate.response;
    }
    r := UserController.UpdateUser(db, gate.user.id, id, body);
  }

  /** DELETE /users/delete/:id: any live session may delete any user. */
  method RemoveUser(db: Database.Db, authorization: Option<string>, cookie: Option<string>, nowMs: nat, id: ObjectId)
    returns (r: Response)
    requires db.Valid()
    modifies db
    ensures db.Valid() && db.articles == old(db.articles)
    ensures !Authenticated(old(db.users), authorization, cookie, nowMs) ==> GateRefusal(r) && db.users == old(db.users)
    ensures Authenticated(old(db.users), authorization, cookie, nowMs) && id in old(db.users)
            ==> r == Reply(200, "User deleted") && db.users == old(db.users) - {id}
    ensures db.users != old(db.users) ==> Authenticated(old(db.users), authorization, cookie, nowMs)
  {
    var gate := Protect(db, authorization, cookie, nowMs);
    if gate.Reject? {
      return gate.response;
    }
    r := UserController.DeleteUser(db, gate.user.id, id);
  }
}
