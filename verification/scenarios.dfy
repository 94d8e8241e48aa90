/** Clients of the handlers: request sequences and what the store guarantees about them. */
module Scenarios {
  import opened Wrappers
  import opened ObjectIds
  import opened UserModel
  import opened ArticleModel
  import opened Http
  import opened AuthMiddleware
  import Bcrypt
  import Database
  import UserController
  import Routes

  /** The password in `body` verifies against the stored hash of the user with `body`'s email. */
  predicate CredentialsVerify(users: map<ObjectId, User>, body: UserBody) {
    body.password.Some? && EmailExists(users, body.email)
    && forall id | id in users && body.email == Some(users[id].email) :: Bcrypt.Compare(body.password.value, users[id].password)
  }

  /**
   * Two logins with the same credentials: the bearer token and cookie the
   * first one handed out are refused afterwards, although the token has not
   * expired; those of the second are admitted.
   */
  method SecondLoginRevokesFirst(db: Database.Db, body: UserBody, firstSession: string, secondSession: string,
                                 firstMs: nat, secondMs: nat, laterMs: nat)
    returns (stale: Outcome, current: Outcome)
    requires db.Valid() && CredentialsVerify(db.users, body)
    requires firstSession != secondSession
    requires laterMs / 1000 < firstMs / 1000 + UserController.TokenLifetime
    requires laterMs / 1000 < secondMs / 1000 + UserController.TokenLifetime
    modifies db
    ensures stale == Reject(Reply(401, "User not allowed"))
    // The second login's pair admits the user who logged in.
    ensures current.Next? && current.user.id in db.users && body.email == Some(db.users[current.user.id].email)
  {
    ghost var id :| id in db.users && db.users[id].email == body.email.value;
    var first := UserController.LoginUser(db, body, firstSession, firstMs);
    assert db.users[id].email == body.email.value;
    var second := UserController.LoginUser(db, body, secondSession, secondMs);
    assert db.users[id].sessionToken == secondSession;
    SignedHeaderSubject(id, firstMs / 1000, UserController.TokenLifetime, laterMs);
    SignedHeaderSubject(id, secondMs / 1000, UserController.TokenLifetime, laterMs);
    stale := Protect(db, Some(BearerHeader(first.body.token)), Some(first.cookie.token), laterMs);
    current := Protect(db, Some(BearerHeader(second.body.token)), Some(second.cookie.token), laterMs);
    assert Admits(db.users, Some(BearerHeader(second.body.token)), Some(second.cookie.token), laterMs, id);
  }

  /**
   * Logging out clears the client's cookie and nothing else: whoever still
   * holds the token and the cookie value is admitted after the logout.
   */
  method LogoutKeepsSessionLive(db: Database.Db, body: UserBody, session: string, loginMs: nat, laterMs: nat)
    returns (logout: Response, after: Outcome)
    requires db.Valid() && CredentialsVerify(db.users, body)
    requires laterMs / 1000 < loginMs / 1000 + UserController.TokenLifetime
    modifies db
    ensures logout.Sent? && logout.cookie == ClearSessionCookie
    ensures after.Next? && after.user.id in db.users && body.email == Some(db.users[after.user.id].email)
  {
    ghost var id :| id in db.users && db.users[id].email == body.email.value;
    var login := UserController.LoginUser(db, body, session, loginMs);
    logout := UserController.LogoutUser();
    SignedHeaderSubject(id, loginMs / 1000, UserController.TokenLifetime, laterMs);
    after := Protect(db, Some(BearerHeader(login.body.token)), Some(login.cookie.token), laterMs);
    assert Admits(db.users, Some(BearerHeader(login.body.token)), Some(login.cookie.token), laterMs, id);
  }

  /**
   * A successful registration hands out a bearer token and a cookie that the
   * gate admits, as the new user, until the token expires.
   */
  method RegistrationIsASession(db: Database.Db, body: UserBody, salt: Bcrypt.Salt, session: string,
                                newId: ObjectId, nowMs: nat, laterMs: nat)
    returns (registered: Response, gate: Outcome)
    requires db.Valid()
    requires laterMs / 1000 < nowMs / 1000 + UserController.TokenLifetime
    modifies db
    ensures registered.Sent? && registered.status == 200 ==> gate.Next? && gate.user.id == newId
  {
    registered := UserController.CreateUser(db, body, salt, session, newId, nowMs);
    if registered.Sent? && registered.status == 200 {
      SignedHeaderSubject(newId, nowMs / 1000, UserController.TokenLifetime, laterMs);
      gate := Protect(db, Some(BearerHeader(registered.body.token)), Some(registered.cookie.token), laterMs);
      assert Admits(db.users, Some(BearerHeader(registered.body.token)), Some(registered.cookie.token), laterMs, newId);
    } else {
      gate := Reject(registered);
    }
  }

  /** A token generated now, sent with the stored session token as cookie, admits its user. */
  lemma FreshSessionAdmitted(users: map<ObjectId, User>, id: ObjectId, nowMs: nat)
    requires id in users
    ensures Admits(users, Some(BearerHeader(UserController.GenerateToken(id, nowMs))), Some(users[id].sessionToken), nowMs, id)
  {
    SignedHeaderSubject(id, nowMs / 1000, UserController.TokenLifetime, nowMs);
  }

  /**
   * Alice and Bob hold live sessions; Alice adds an article; Bob's edit of it
   * is refused and leaves it as it was; Alice's edit is applied. This runs on
   * the corrected article handlers: as written, the add already fails.
   */
  method OwnershipWalkthrough(db: Database.Db, aliceId: ObjectId, bobId: ObjectId, articleId: ObjectId, nowMs: nat)
    returns (bobEdit: Response, aliceEdit: Response)
    requires aliceId in db.users && bobId in db.users && aliceId != bobId
    requires articleId !in db.articles
    modifies db
    ensures bobEdit == Reply(400, "User not allowed")
    ensures aliceEdit == Reply(201, "Article updated succesfully")
    ensures articleId in db.articles && db.articles[articleId] == Article(aliceId, "T2", "B2")
  {
    var aliceAuth := Some(BearerHeader(UserController.GenerateToken(aliceId, nowMs)));
    var aliceCookie := Some(db.users[aliceId].sessionToken);
    var bobAuth := Some(BearerHeader(UserController.GenerateToken(bobId, nowMs)));
    var bobCookie := Some(db.users[bobId].sessionToken);
    FreshSessionAdmitted(db.users, aliceId, nowMs);
    FreshSessionAdmitted(db.users, bobId, nowMs);

    var added := Routes.AddArticle(db, aliceAuth, aliceCookie, nowMs, ArticleBody(None, Some("T"), Some("B")), articleId);
    assert db.articles[articleId] == Article(aliceId, "T", "B");
    var edit := ArticleBody(None, Some("T2"), Some("B2"));
    bobEdit := Routes.EditArticle(db, bobAuth, bobCookie, nowMs, articleId, edit);
    assert db.articles[articleId] == Article(aliceId, "T", "B");
    aliceEdit := Routes.EditArticle(db, aliceAuth, aliceCookie, nowMs, articleId, edit);
  }
}
