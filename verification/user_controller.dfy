/** The handlers of /users: registration, login, logout, profile edits. */
module UserController {
  import opened Wrappers
  import opened ObjectIds
  import opened UserModel
  import opened Http
  import Bcrypt
  import Jwt
  import Database

  /** Lifetime of the registration cookie: 24 hours, in milliseconds. */
  const RegistrationCookieLifetime: nat := 3600000 * 24
  /** Lifetime of the login cookie: 7 days, in milliseconds. */
  const LoginCookieLifetime: nat := 7 * 24 * 60 * 60 * 1000
  /** `expiresIn: "30d"`, in seconds. */
  const TokenLifetime: nat := 30 * 24 * 60 * 60

  /** `generateToken(id)` at time `nowMs`: a token for `id` that expires 30 days after the current second. */
  function GenerateToken(id: ObjectId, nowMs: nat): (token: string)
    ensures Jwt.Decode(token) == Some(Jwt.Claims(id, nowMs / 1000 + TokenLifetime))
  {
    Jwt.Sign(id, nowMs / 1000, TokenLifetime)
  }

  /** A generated token verifies to its id until 30 days have passed, and not after. */
  lemma GeneratedTokenVerifies(id: ObjectId, issuedMs: nat, nowMs: nat)
    ensures Jwt.Verify(Some(GenerateToken(id, issuedMs)), nowMs)
            == if nowMs / 1000 < issuedMs / 1000 + TokenLifetime then Some(id) else None
  {
  }

  /** The error `bcrypt.hash` and `bcrypt.compare` reject with when the password is undefined. */
  const IllegalArguments: string := "Illegal arguments: undefined, string"

  /**
   * `createUser`. `salt` stands for `bcrypt.genSalt(10)`, `sessionToken` for
   * `uuidv4()`, `newId` for the ObjectId MongoDB assigns and `nowMs` for
   * `Date.now()`.
   */
  method CreateUser(db: Database.Db, body: UserBody, salt: Bcrypt.Salt, sessionToken: string, newId: ObjectId, nowMs: nat)
    returns (r: Response)
    requires db.Valid()
    modifies db
    ensures db.Valid() && db.articles == old(db.articles)
    // Hashing an undefined password rejects before anything else runs.
    ensures body.password.None? ==> r == Uncaught(IllegalArguments) && db.users == old(db.users)
    // The conflict checks come first, email before username.
    ensures body.password.Some? && EmailExists(old(db.users), body.email)
            ==> r == Reply(400, "Email already exists") && db.users == old(db.users)
    ensures body.password.Some? && !EmailExists(old(db.users), body.email) && UsernameExists(old(db.users), body.username)
            ==> r == Reply(400, "Username already exists") && db.users == old(db.users)
    // Then the missing-field check.
    ensures body.password.Some? && !EmailExists(old(db.users), body.email) && !UsernameExists(old(db.users), body.username)
            && !(Truthy(body.email) && Truthy(body.username) && Truthy(body.password))
            ==> r == Reply(400, "Please complete all the fields") && db.users == old(db.users)
    // A failed insert (schema validation, or an id already taken) answers 500 and sets no cookie.
    ensures body.password.Some? && !EmailExists(old(db.users), body.email) && !UsernameExists(old(db.users), body.username)
            && Truthy(body.email) && Truthy(body.username) && Truthy(body.password)
            && (newId in old(db.users) || sessionToken == "")
            ==> r == Reply(500, "Server error") && db.users == old(db.users)
    // Success adds exactly one user.
    ensures r.Sent? && r.status == 200 <==>
              body.password.Some? && !EmailExists(old(db.users), body.email) && !UsernameExists(old(db.users), body.username)
              && Truthy(body.email) && Truthy(body.username) && Truthy(body.password)
              && newId !in old(db.users) && sessionToken != ""
    ensures r.Sent? && r.status == 200 ==>
              db.users == old(db.users)[newId := User(body.email.value, body.username.value,
                                                      Bcrypt.Hash(body.password.value, salt),
                                                      DefaultProfilePicture, [], sessionToken)]
              && r.cookie == SetSessionCookie(sessionToken, nowMs + RegistrationCookieLifetime)
              && r.body == Registered(body.email.value, body.username.value, Bcrypt.Hash(body.password.value, salt),
                                      DefaultProfilePicture, GenerateToken(newId, nowMs))
    // The cookie carries the stored session token, and the stored password is never the plaintext.
    ensures r.Sent? && r.status == 200 ==>
              newId in db.users && r.cookie.SetSessionCookie?
              && db.users[newId].sessionToken == r.cookie.token
              && db.users[newId].password != body.password.value
              && SatisfiesUserSchema(db.users[newId])
    ensures !(r.Sent? && r.status == 200) ==> db.users == old(db.users)
  {
    if body.password.None? {
      return Uncaught(IllegalArguments);
    }
    var encryptedPassword := Bcrypt.Hash(body.password.value, salt);
    var emailExists := EmailExists(db.users, body.email);
    var usernameExists := UsernameExists(db.users, body.username);
    if emailExists {
      return Reply(400, "Email already exists");
    }
    if usernameExists {
      return Reply(400, "Username already exists");
    }
    if !Truthy(body.email) || !Truthy(body.username) || !Truthy(body.password) {
      return Reply(400, "Please complete all the fields");
    }
    var user := User(body.email.value, body.username.value, encryptedPassword, DefaultProfilePicture, [], sessionToken);
    if newId in db.users || !SatisfiesUserSchema(user) {
      return Reply(500, "Server error");
    }
    InsertKeepsUnique(db.users, newId, user);
    db.users := db.users[newId := user];
    r := Sent(200,
              Registered(user.email, user.username, user.password, user.profilePicture, GenerateToken(newId, nowMs)),
              SetSessionCookie(sessionToken, nowMs + RegistrationCookieLifetime));
  }

  /**
   * `loginUser`. `sessionToken` stands for `uuidv4()`. Only a password that
   * verifies rotates the stored session token.
   */
  method LoginUser(db: Database.Db, body: UserBody, sessionToken: string, nowMs: nat) returns (r: Response)
    requires db.Valid()
    modifies db
    ensures db.Valid() && db.articles == old(db.articles)
    ensures !EmailExists(old(db.users), body.email) ==> r == Reply(400, "User doesn't exist") && db.users == old(db.users)
    ensures forall id | id in old(db.users) && body.email == Some(old(db.users)[id].email) ::
              if body.password.None? then
                // bcrypt.compare rejects; the catch only logs.
                r == Silent && db.users == old(db.users)
              else if Bcrypt.Compare(body.password.value, old(db.users)[id].password) then
                db.users == old(db.users)[id := old(db.users)[id].(sessionToken := sessionToken)]
                && r == Sent(200,
                             LoggedIn(old(db.users)[id].email, old(db.users)[id].username, old(db.users)[id].profilePicture,
                                      old(db.users)[id].articles, GenerateToken(id, nowMs)),
                             SetSessionCookie(sessionToken, nowMs + LoginCookieLifetime))
              else
                r == Reply(400, "Email or password incorrect") && db.users == old(db.users)
    // Whatever happens, the session tokens of all other users are untouched.
    ensures db.users.Keys == old(db.users).Keys
    ensures forall id | id in db.users && db.users[id].sessionToken != old(db.users)[id].sessionToken ::
              r.Sent? && r.status == 200 && db.users[id].sessionToken == sessionToken && r.cookie.token == sessionToken
  {
    if !EmailExists(db.users, body.email) {
      return Reply(400, "User doesn't exist");
    }
    var id :| id in db.users && db.users[id].email == body.email.value;
    var user := db.users[id];
    if body.password.None? {
      return Silent;
    }
    if Bcrypt.Compare(body.password.value, user.password) {
      r := Sent(200,
                LoggedIn(user.email, user.username, user.profilePicture, user.articles, GenerateToken(id, nowMs)),
                SetSessionCookie(sessionToken, nowMs + LoginCookieLifetime));
      db.users := db.users[id := user.(sessionToken := sessionToken)];
    } else {
      r := Reply(400, "Email or password incorrect");
    }
  }

  /** `logoutUser`: clears the cookie; it has no access to the store, so no stored session token changes. */
  method LogoutUser() returns (r: Response)
    ensures r == Sent(200, Message("User logged out"), ClearSessionCookie)
  {
    r := Sent(200, Message("User logged out"), ClearSessionCookie);
  }

  /** `getCurrentUser` for the user `protect` admitted: the whole stored document, password hash included. */
  method GetCurrentUser(db: Database.Db, requester: ObjectId) returns (r: Response)
    ensures requester in db.users ==> r == Sent(200, UserDocument(requester, db.users[requester]), KeepCookie)
    ensures requester !in db.users ==> r == Reply(400, "User not found!")
  {
    if requester !in db.users {
      return Reply(400, "User not found!");
    }
    r := Sent(200, UserDocument(requester, db.users[requester]), KeepCookie);
  }

  /**
   * `updateUser`. `requester` is the user `protect` admitted; it is never
   * consulted, so any signed-in user may edit any user. An edit that would
   * break a unique index is refused by MongoDB and the catch only logs.
   */
  method UpdateUser(db: Database.Db, requester: ObjectId, id: ObjectId, body: UserBody) returns (r: Response)
    requires db.Valid()
    modifies db
    ensures db.Valid() && db.articles == old(db.articles)
    ensures id !in old(db.users) ==> r == Reply(400, "User not found") && db.users == old(db.users)
    ensures id in old(db.users) ==>
              var edited := old(db.users)[id := Patched(old(db.users)[id], body)];
              if UniqueEmails(edited) && UniqueUsernames(edited)
              then r == Reply(200, "User updated") && db.users == edited
              else r == Silent && db.users == old(db.users)
  {
    if id !in db.users {
      return Reply(400, "User not found");
    }
    var edited := db.users[id := Patched(db.users[id], body)];
    if UniqueEmails(edited) && UniqueUsernames(edited) {
      db.users := edited;
      r := Reply(200, "User updated");
    } else {
      r := Silent;
    }
  }

  /**
   * `deleteUser`. `requester` is never consulted. The user's articles stay in
   * the store (no cascade).
   */
  method DeleteUser(db: Database.Db, requester: ObjectId, id: ObjectId) returns (r: Response)
    requires db.Valid()
    modifies db
    ensures db.Valid() && db.articles == old(db.articles)
    ensures id !in old(db.users) ==> r == Reply(400, "User not found") && db.users == old(db.users)
    ensures id in old(db.users) ==> r == Reply(200, "User deleted") && db.users == old(db.users) - {id}
  {
    if id !in db.users {
      return Reply(400, "User not found");
    }
    db.users := db.users - {id};
    r := Reply(200, "User deleted");
  }
}
