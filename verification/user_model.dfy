/** MongoDB ObjectIds, abstracted to their numeric value and compared by value. */
module ObjectIds {
  type ObjectId = nat
}

/** The `User` schema and the constraints MongoDB keeps over the users collection. */
module UserModel {
  import opened Wrappers
  import opened ObjectIds

  /**
   * A stored user document. `password` holds a bcrypt hash when written by
   * registration; `articles` is a denormalised list of article ids that no
   * handler maintains. There are no other fields: the schema's timestamps are
   * not modelled.
   */
  datatype User = User(
    email: string,
    username: string,
    password: string,
    profilePicture: string,
    articles: seq<ObjectId>,
    sessionToken: string)

  const DefaultProfilePicture: string := "default"

  /**
   * Mongoose's `required` validators on create: a required string must be
   * present and non-empty. `articles` is optional.
   */
  predicate SatisfiesUserSchema(u: User) {
    u.email != "" && u.username != "" && u.password != ""
    && u.profilePicture != "" && u.sessionToken != ""
  }

  /** The unique index on `email`. */
  predicate UniqueEmails(users: map<ObjectId, User>) {
    forall a, b | a in users && b in users && users[a].email == users[b].email :: a == b
  }

  /** The unique index on `username`. */
  predicate UniqueUsernames(users: map<ObjectId, User>) {
    forall a, b | a in users && b in users && users[a].username == users[b].username :: a == b
  }

  /**
   * `User.findOne({ email })` finds a document. A request that carries no
   * email is taken to match no stored user.
   */
  predicate EmailExists(users: map<ObjectId, User>, email: Option<string>) {
    email.Some? && exists id | id in users :: users[id].email == email.value
  }

  /** `User.findOne({ username })` finds a document. */
  predicate UsernameExists(users: map<ObjectId, User>, username: Option<string>) {
    username.Some? && exists id | id in users :: users[id].username == username.value
  }

  /**
   * Inserting a user whose email and username no stored user has keeps both
   * unique indexes; an insert that would break one is what MongoDB refuses.
   */
  lemma InsertKeepsUnique(users: map<ObjectId, User>, id: ObjectId, u: User)
    requires UniqueEmails(users) && UniqueUsernames(users) && id !in users
    ensures UniqueEmails(users[id := u]) <==> !EmailExists(users, Some(u.email))
    ensures UniqueUsernames(users[id := u]) <==> !UsernameExists(users, Some(u.username))
  {
    var after := users[id := u];
    if EmailExists(users, Some(u.email)) {
      var other :| other in users && users[other].email == u.email;
      assert after[other].email == after[id].email && other != id;
    }
    if UsernameExists(users, Some(u.username)) {
      var other :| other in users && users[other].username == u.username;
      assert after[other].username == after[id].username && other != id;
    }
  }

  /** A user as `findById(id).select("-password")` returns it: every field but the password. */
  datatype PublicUser = PublicUser(
    id: ObjectId,
    email: string,
    username: string,
    profilePicture: string,
    articles: seq<ObjectId>,
    sessionToken: string)

  function WithoutPassword(id: ObjectId, u: User): PublicUser {
    PublicUser(id, u.email, u.username, u.profilePicture, u.articles, u.sessionToken)
  }

  /**
   * The public view forgets exactly the password: two documents of the same id
   * look alike through it if and only if they differ at most in their password.
   */
  lemma WithoutPasswordForgetsHash(id: ObjectId, u: User, v: User)
    ensures WithoutPassword(id, u) == WithoutPassword(id, v) <==> u.(password := v.password) == v
  {
  }

  /** The JSON body of a users request; every field may be absent. */
  datatype UserBody = UserBody(
    email: Option<string>,
    username: Option<string>,
    password: Option<string>,
    profilePicture: Option<string>,
    articles: Option<seq<ObjectId>>,
    sessionToken: Option<string>)

  /**
   * `findByIdAndUpdate(id, body)`: every field present in the body replaces the
   * stored one, as given (no validators run and nothing is hashed); an empty
   * body changes nothing and a full one replaces the whole document.
   */
  function Patched(u: User, b: UserBody): (r: User)
    ensures b == UserBody(None, None, None, None, None, None) ==> r == u
    ensures b.email.Some? && b.username.Some? && b.password.Some? && b.profilePicture.Some?
            && b.articles.Some? && b.sessionToken.Some?
            ==> r == User(b.email.value, b.username.value, b.password.value, b.profilePicture.value,
                          b.articles.value, b.sessionToken.value)
  {
    User(
      if b.email.Some? then b.email.value else u.email,
      if b.username.Some? then b.username.value else u.username,
      if b.password.Some? then b.password.value else u.password,
      if b.profilePicture.Some? then b.profilePicture.value else u.profilePicture,
      if b.articles.Some? then b.articles.value else u.articles,
      if b.sessionToken.Some? then b.sessionToken.value else u.sessionToken)
  }

  /**
   * No validators run on an edit: a valid user stays valid exactly when the
   * body sets none of the required strings to "".
   */
  lemma PatchedKeepsSchema(u: User, b: UserBody)
    requires SatisfiesUserSchema(u)
    ensures SatisfiesUserSchema(Patched(u, b)) <==>
              b.email != Some("") && b.username != Some("") && b.password != Some("")
              && b.profilePicture != Some("") && b.sessionToken != Some("")
  {
  }

  /**
   * The unique indexes seen through `findOne`: emails (usernames) are unique
   * exactly when looking up a stored user's email (username) among the other
   * users finds nothing.
   */
  lemma UniqueIndexByFindOne(users: map<ObjectId, User>)
    ensures UniqueEmails(users) <==> forall id | id in users :: !EmailExists(users - {id}, Some(users[id].email))
    ensures UniqueUsernames(users) <==> forall id | id in users :: !UsernameExists(users - {id}, Some(users[id].username))
  {
    if !UniqueEmails(users) {
      var a, b :| a in users && b in users && users[a].email == users[b].email && a != b;
      assert (users - {a})[b].email == users[a].email;
    }
    if !UniqueUsernames(users) {
      var a, b :| a in users && b in users && users[a].username == users[b].username && a != b;
      assert (users - {a})[b].username == users[a].username;
    }
  }
}
