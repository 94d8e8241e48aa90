# Authentication and ownership model of node-rest-api-with-auth

A Dafny model of the authentication and authorization core of a small
Express/Mongoose blog API: registration, login and logout, the `protect`
middleware that admits a request only when its bearer token names an existing
user whose stored `session_token` equals the request's `session_token`
cookie, and the author check on article edits and deletions.

The store is a class `Database.Db` with two map-valued fields, `users` and
`articles`, keyed by ObjectId; its invariant `Valid()` is the pair of unique
indexes on `email` and `username`, which MongoDB enforces on every write.
Each handler that writes to the store is a method on it, and each read-only
article handler is a function of the `articles` map; both return a
`Response`: a status, a JSON body and what it does to the `session_token`
cookie. `Silent` stands for
a `catch` that only logs and sends nothing; `Uncaught` stands for an
exception passed to Express, which answers 500.

The foreign collaborators are stand-ins with bodies:

- **bcrypt** (`Bcrypt`): `Hash(plain, salt)` writes a header, the salt and a
  digest; `Compare` accepts exactly the hashed password, compared in full
  (bcrypt's 72-byte limit is not modelled, see "Left out"). The salt from
  `genSalt(10)` is a parameter.
- **JWT** (`Jwt`): a token carries the user id and its expiry in seconds.
  `Verify(token, nowMs)` fails for a missing, malformed or expired token.
  Expiry is 30 days after the second the token was issued.
- **uuid, clock, ids**: `uuidv4()` is a `sessionToken` parameter,
  `Date.now()` is `nowMs`, and the ObjectId MongoDB assigns is `newId`.

Modules follow the source files: `UserModel` and `ArticleModel`
(models/User.js, models/Article.js), `AuthMiddleware`
(middlewares/AuthMiddleware.js), `UserController` and `ArticleController`
(controllers/). `Routes` wires `protect` in front of the private handlers as
routes/ArticleRoutes.js and routes/UserRoutes.js do. The article routes run
the corrected article handlers, not the ones as written (see "Findings").
`Scenarios` holds client methods that chain handlers.

Behaviours of the code worth knowing:

- `createUser` checks for a duplicate email, then a duplicate username, and
  only then for missing fields (controllers/UserController.js:31-49).
- If the password is absent, `bcrypt.hash` rejects at line 27, before any
  check runs. The request then ends in Express's 500, not in "Please complete
  all the fields". An empty password does reach the checks.
- Registration answers 200, not 201. An ownership failure answers 400 "User
  not allowed".
- The gate gives three different answers: 400 "Access Token not found",
  400 "Access not allowed" and 401 "User not allowed".
- `updateUser` and `deleteUser` do not compare the target with `req.user`:
  any admitted user may edit or delete any user.
- `updateUser` stores a new password as given, without hashing it.
- `updateArticle` applies the request body as given, so it can replace
  the `author` of an article.
- Logout clears only the cookie. A token and cookie value captured before
  logout stay usable until the next login rotates the stored token
  (`Scenarios.LogoutKeepsSessionLive`).

## Model

| member | source | states |
|---|---|---|
| `Strings.StartsWith` | middlewares/AuthMiddleware.js:11 | defines `startsWith`: the string is at least as long as the prefix and begins with it |
| `AuthMiddleware.HasBearerPrefix` | middlewares/AuthMiddleware.js:10-11 | defines the gate's first test: the header is present and starts with "Bearer" |
| `AuthMiddleware.BearerToken` | middlewares/AuthMiddleware.js:14 | defines the token taken from the header: its second space-separated field, absent when the header has no space |
| `AuthMiddleware.BearerSubject` | middlewares/AuthMiddleware.js:14-16 | defines the id the gate decodes: the bearer token's id when the header passes the first test and the token verifies now, otherwise none |
| `Http.Truthy` | controllers/UserController.js:46 | defines JavaScript truthiness of a request field as the `!x` tests use it: present and not "" |
| `Strings.SecondField` | middlewares/AuthMiddleware.js:14 | `split(" ")[1]` exists exactly when the header holds a space, and holds no space itself |
| `Strings.SecondFieldOf` | middlewares/AuthMiddleware.js:14 | the text between the first space and the next space (or the end) is the field returned |
| `AuthMiddleware.BearerHeaderToken` | middlewares/AuthMiddleware.js:11-14 | for "Bearer <token>" followed by nothing or a space-led tail, the parsed token is `<token>` |
| `AuthMiddleware.SignedHeaderSubject` | middlewares/AuthMiddleware.js:11-16 | a header made from an issued token yields that token's user id until the expiry second, and none from then on |
| `AuthMiddleware.Protect` | middlewares/AuthMiddleware.js:5-35 | no "Bearer" header: 400 "Access Token not found"; token fails verification or names no stored user: 400 "Access not allowed"; cookie differs from the stored `session_token`: 401 "User not allowed"; `next` with the user minus its password exactly when the token names an existing user whose stored session token equals the cookie; reads the store only |
| `Bcrypt.Hash` | controllers/UserController.js:26-27 | the stored hash is never the plaintext password |
| `Bcrypt.Compare` | controllers/UserController.js:97 | `compare` succeeds exactly when the stored value is the hash of the candidate under some salt; a stored value without the header and a full salt is rejected (lengths and salts that bcrypt itself would refuse are not told apart; see "Left out") |
| `Bcrypt.CompareHash` | controllers/UserController.js:97 | comparing against a hash accepts the hashed password and rejects every other one, whatever the salt (all characters compared; see "Left out") |
| `Jwt.DecodeEncode` | controllers/UserController.js:188-190 | every issued token decodes to the id and expiry it was made from |
| `Jwt.Decode` | middlewares/AuthMiddleware.js:16 | a string decodes only if it is the encoding of what it decodes to, so no other token reaches `verify`'s success |
| `Jwt.Sign` | controllers/UserController.js:189 | the signed token carries the id and an expiry `expiresIn` seconds after issue |
| `Jwt.Verify` | middlewares/AuthMiddleware.js:16 | verification yields the token's id exactly when the token is present, well-formed and the current second is before its expiry |
| `UserController.GenerateToken` | controllers/UserController.js:188-190 | the token names the user id and expires 30 days after the current second |
| `UserController.GeneratedTokenVerifies` | controllers/UserController.js:189 | a generated token verifies to its id before its 30 days are up, and fails after |
| `UserModel.SatisfiesUserSchema` | models/User.js:13-49 | defines the create-time `required` validators: email, username, password, profile picture and session token present and non-empty; `articles` optional |
| `UserModel.UniqueEmails` | models/User.js:15-19 | defines the unique index on `email`: no two stored users share an email |
| `UserModel.UniqueUsernames` | models/User.js:21-25 | defines the unique index on `username`: no two stored users share a username |
| `UserModel.EmailExists` | controllers/UserController.js:32 | defines `findOne({ email })` finding a document: the request carries an email and some stored user has it |
| `UserModel.UsernameExists` | controllers/UserController.js:33 | defines `findOne({ username })` finding a document, in the same way |
| `UserModel.UniqueIndexByFindOne` | models/User.js:15-25 | each unique index holds exactly when a `findOne` for any stored user's email (username) among the other users finds nothing |
| `UserModel.WithoutPassword` | middlewares/AuthMiddleware.js:17 | defines the document `select("-password")` yields: id, email, username, profile picture, articles and session token |
| `UserModel.WithoutPasswordForgetsHash` | middlewares/AuthMiddleware.js:17 | two documents of one id look alike without their passwords if and only if they differ in nothing but the password |
| `UserModel.Patched` | controllers/UserController.js:158 | an empty body leaves the user unchanged; a body with every field replaces the whole document, password included and unhashed |
| `UserModel.PatchedKeepsSchema` | controllers/UserController.js:158 | no validator runs on the edit: a valid user stays valid exactly when the body sets no required string to "" |
| `ArticleModel.SatisfiesArticleSchema` | models/Article.js:9-30 | defines the create-time `required` validators: an author (always present here), a non-empty title and a non-empty body; the misspelled `timestapms` option adds no fields |
| `ArticleModel.Patched` | controllers/ArticleController.js:88 | an empty body leaves the article unchanged; a body with every field replaces it, author included |
| `ArticleModel.PatchedKeepsSchema` | controllers/ArticleController.js:88 | no validator runs on the edit: a valid article stays valid exactly when the body sets neither title nor body to "" |
| `AuthMiddleware.Admits` | middlewares/AuthMiddleware.js:10-21 | defines admission: the header starts with "Bearer", its second space-separated field verifies to an id, that user exists, and the cookie equals its stored session token |
| `UserModel.InsertKeepsUnique` | models/User.js:15-25 | inserting a user keeps the email and username unique indexes exactly when no stored user already has that email or that username |
| `UserController.CreateUser` | controllers/UserController.js:25-80 | undefined password: uncaught error, nothing stored; a duplicate email gives "Email already exists" before a duplicate username gives "Username already exists"; both come before "Please complete all the fields"; an insert that fails gives 500; on success exactly one user is added, with the hash of the password, profile picture "default", no articles, and a `session_token` equal to the cookie value (24-hour cookie); articles untouched; unique indexes kept |
| `UserController.LoginUser` | controllers/UserController.js:85-132 | unknown email: 400 "User doesn't exist", store unchanged; undefined password: no response, store unchanged; wrong password: 400 "Email or password incorrect", store unchanged; right password: only that user's `session_token` is replaced by the fresh token, which is also the 7-day cookie, and the body carries a token for that user; no other user's session token ever changes |
| `UserController.LogoutUser` | controllers/UserController.js:137-144 | 200 "User logged out" and a cleared cookie; it has no access to the store |
| `UserController.GetCurrentUser` | controllers/UserController.js:11-20 | the admitted user's whole document, password hash included, or 400 "User not found!" |
| `UserController.UpdateUser` | controllers/UserController.js:149-163 | unknown id: 400 "User not found"; otherwise the body's fields replace the stored ones for any requester, unless that breaks a unique index, in which case nothing changes and nothing is sent |
| `UserController.DeleteUser` | controllers/UserController.js:168-183 | unknown id: 400 "User not found"; otherwise that user is removed for any requester, with their articles left in place |
| `ArticleController.ArticlesByAuthor` | controllers/ArticleController.js:23 | exactly the stored articles whose author is the given id, unchanged |
| `ArticleController.GetAllArticles` | controllers/ArticleController.js:7-16 | always 200 with every stored article (the "no articles" branch is unreachable) |
| `ArticleController.GetArticlesByUser` | controllers/ArticleController.js:21-32 | always 200; a stored article is in the result exactly when its author is the given id, and each is returned as stored |
| `ArticleController.GetArticle` | controllers/ArticleController.js:37-45 | 200 with the article exactly when it exists, otherwise 400 "Article not found!" |
| `ArticleController.CreateArticle` | controllers/ArticleController.js:50-71 | title or body missing: 400 "Missing Field"; otherwise a new article whose author is the admitted user, never the body's `author`, passing the schema's required fields, with 201; users untouched |
| `ArticleController.CreateArticleAsWritten` | controllers/ArticleController.js:59 | every call ends in the uncaught ReferenceError and sends no response of its own; it cannot change the store |
| `ArticleController.UpdateArticle` | controllers/ArticleController.js:76-98 | unknown id: 400 "Article not found!"; the author gets 201 and the body applied; anyone else gets 400 "User not allowed" and the article unchanged; the articles change only for the author |
| `ArticleController.UpdateArticleAsWritten` | controllers/ArticleController.js:87 | with `===` on ObjectId instances every existing article answers 400 "User not allowed", its author included |
| `ArticleController.DeleteArticle` | controllers/ArticleController.js:103-124 | unknown id: 400 "Article not found"; the author gets 200 "Article deleted" and the article removed; anyone else gets 400 "User not allowed" and the article kept |
| `ArticleController.DeleteArticleAsWritten` | controllers/ArticleController.js:114-115 | with `===` on ObjectId instances every existing article answers 400 "User not allowed", its author included |
| `Routes.AddArticle` | routes/ArticleRoutes.js:16 | on the corrected `createArticle`: without a live session the gate refuses and nothing is stored; a new article's author is always the user whose live session was presented |
| `Routes.EditArticle` | routes/ArticleRoutes.js:17 | on the corrected `updateArticle`: without a live session nothing changes; an article changes only when its author's live session is presented |
| `Routes.RemoveArticle` | routes/ArticleRoutes.js:18 | on the corrected `deleteArticle`: without a live session nothing changes; an article is removed only when its author's live session is presented |
| `Routes.Me` | routes/UserRoutes.js:16 | the document of the user whose live session was presented, or the gate's refusal |
| `Routes.EditUser` | routes/UserRoutes.js:17 | any live session can edit any existing user; without one nothing changes |
| `Routes.RemoveUser` | routes/UserRoutes.js:18 | any live session can delete any existing user; without one nothing changes |
| `Scenarios.SecondLoginRevokesFirst` | controllers/UserController.js:110-114 | after a second login, the token and cookie of the first get 401 "User not allowed" even before the token expires; those of the second are admitted, as the user with the login's email |
| `Scenarios.LogoutKeepsSessionLive` | controllers/UserController.js:137-144 | after logout, the token and cookie value issued at login are still admitted, as the user with the login's email |
| `Scenarios.RegistrationIsASession` | controllers/UserController.js:53-75 | the token and cookie a successful registration hands out are admitted, as the new user |
| `Scenarios.OwnershipWalkthrough` | controllers/ArticleController.js:87-92 | on the corrected article handlers, with live sessions for two users, the other user's edit of the author's new article is refused and leaves it unchanged; the author's edit is applied (as written, the add already fails at line 59) |

## Left out

- bcrypt is modelled as an injective encoding of the password, not a one-way
  hash. Salt randomness, the work factor and timing safety are not modelled.
- Bcrypt.Compare: accepts any stored value made of the header, a 22-character
  salt and the candidate, whatever its length, while bcryptjs accepts only
  60-character hashes. A password stored unhashed through `updateUser` in that
  form logs in here and is refused ("Email or password incorrect") by the
  code. Conversely, for a 60-character stored value that is not a valid
  bcrypt hash, bcryptjs throws and the catch at lines 127-129 of
  controllers/UserController.js only logs, so nothing is sent; here the
  login answers 400 "Email or password incorrect".
- Bcrypt.CompareHash: compares every character of the password, while bcrypt
  reads only the first 72 bytes (UTF-8) of it. Two passwords that agree on
  those 72 bytes are told apart here and match in bcryptjs.
- UserController.LoginUser: so for a stored password longer than 72 bytes, a
  login whose password agrees only on the first 72 bytes answers 400 "Email
  or password incorrect" here, where the code logs the user in.
- The JWT signature, the shared secret and the `iat` claim are not modelled.
  `Jwt.Decode` accepts exactly the strings `Jwt.Encode` produces, so forged
  tokens are outside the model.
- Cookie attributes (`httpOnly`, `sameSite`, `secure`, `domain`, `path`) have
  no effect on the store and are left out. A cookie keeps only its value and
  its absolute expiry. Cookie expiry on the client is not modelled.
- `uuidv4()`, `Date.now()` and ObjectId generation are parameters, not
  randomness or a clock.
- Mongoose persistence, `.lean()`, `express-async-handler` and the await
  points are not modelled. Each handler runs to completion. Concurrent logins
  racing on `session_token` are out of scope.
- A `findOne` filter whose request field is absent is taken to match no user.
  The driver's handling of an undefined filter value is not modelled.
- Request fields that are `null` or not strings are not modelled. Neither
  are ids that are not valid ObjectIds (the CastError path).
- A missing JWT secret at signing time is not modelled.
- The order of the lists returned by `getAllArticles` and `getArticlesByUser`
  is left out: they sort on a `date` field that articles do not have.
- Where a handler answers twice, only the first answer is modelled. This
  happens in `getArticle` and in `protect` after its catch. The second send
  fails because the headers were already sent.
- `UserModel.Patched` and `ArticleModel.Patched` cover only the schema's
  fields. Other keys in a request body are ignored, as Mongoose's strict mode
  ignores them.
- The timestamps the User schema adds are not modelled.
- `ArticleController.UpdateArticleAsWritten`: does not write the update branch
  of line 88. It is unreachable, because `===` between two distinct instances
  never holds.
- `ArticleController.DeleteArticleAsWritten`: does not write the `remove()`
  call of line 115, for the same reason.
- UserController.DeleteUser: assumes a Mongoose version in which a document
  still has `remove()` (before Mongoose 7). From version 7 on, line 178 of
  controllers/UserController.js throws into the logging catch, and nothing is
  deleted or sent.
- server.js is not part of this model: it only wires Express, CORS,
  cookie-parser and the database connection.

## Findings

| source | as written | input that shows it | evidently intended | confidence | as-written member | corrected member |
|---|---|---|---|---|---|---|
| controllers/ArticleController.js:59 | `!author \|\| !title \|\| !body` reads three names that are never declared. Every call throws a ReferenceError, nothing is stored and Express answers 500 | any admitted POST /articles/add, e.g. title "T", body "B" | test the fields of the `article` object built at lines 52-56 | high; not executed | `ArticleController.CreateArticleAsWritten` | `ArticleController.CreateArticle` |
| controllers/ArticleController.js:87 | `req.user._id === article.author` compares two separately loaded ObjectId instances by identity, so it never holds | the article's own author sending PUT /articles/edit/:id | compare the id values | high; not executed | `ArticleController.UpdateArticleAsWritten` | `ArticleController.UpdateArticle` |
| controllers/ArticleController.js:114-115 | the same identity comparison refuses the author; past it, `remove()` is called on the plain object `lean()` returns, which has no such method | the article's own author sending DELETE /articles/delete/:id | compare the id values and delete the document from the collection | high; not executed | `ArticleController.DeleteArticleAsWritten` | `ArticleController.DeleteArticle` |
