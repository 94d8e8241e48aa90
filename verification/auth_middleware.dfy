/** `protect`: the gate in front of every private route. */
module AuthMiddleware {
  import opened Wrappers
  import opened Strings
  import opened ObjectIds
  import opened UserModel
  import opened Http
  import Jwt
  import Database

  /** The gate either calls `next()` with `req.user` set, or answers the request itself. */
  datatype Outcome = Next(user: PublicUser) | Reject(response: Response)

  /** The header passes the gate's first test: present and starting with the characters "Bearer". */
  predicate HasBearerPrefix(authorization: Option<string>) {
    authorization.Some? && StartsWith(authorization.value, "Bearer")
  }

  /** `authorization.split(" ")[1]` */
  function BearerToken(authorization: string): Option<string> {
    SecondField(authorization, ' ')
  }

  /** The id carried by a well-formed, unexpired bearer token in the header, if any. */
  function BearerSubject(authorization: Option<string>, nowMs: nat): Option<ObjectId> {
    if HasBearerPrefix(authorization) then Jwt.Verify(BearerToken(authorization.value), nowMs) else None
  }

  /**
   * The admission rule: the bearer token names user `uid`, that user exists,
   * and the `session_token` cookie equals the session token stored for it.
   */
  predicate Admits(users: map<ObjectId, User>, authorization: Option<string>, cookie: Option<string>, nowMs: nat, uid: ObjectId) {
    BearerSubject(authorization, nowMs) == Some(uid) && uid in users && cookie == Some(users[uid].sessionToken)
  }

  /** The header a client sends for a token: "Bearer <token>". */
  function BearerHeader(token: string): string {
    "Bearer " + token
  }

  /** Whatever follows "Bearer " up to the next space is the token that is verified. */
  lemma BearerHeaderToken(token: string, tail: string)
    requires ' ' !in token
    requires tail == [] || tail[0] == ' '
    ensures BearerToken(BearerHeader(token) + tail) == Some(token)
  {
    assert BearerHeader(token) + tail == "Bearer" + [' '] + token + tail;
    SecondFieldOf("Bearer", ' ', token, tail);
  }

  /** A header made from a token that `Jwt.Sign` issued carries that token's subject until it expires. */
  lemma SignedHeaderSubject(id: ObjectId, iat: nat, expiresIn: nat, nowMs: nat)
    ensures BearerSubject(Some(BearerHeader(Jwt.Sign(id, iat, expiresIn))), nowMs)
            == if nowMs / 1000 < iat + expiresIn then Some(id) else None
  {
    var token := Jwt.Sign(id, iat, expiresIn);
    Jwt.EncodeHasNoSpace(Jwt.Claims(id, iat + expiresIn));
    BearerHeaderToken(token, []);
    assert BearerHeader(token) + [] == BearerHeader(token);
    assert StartsWith(BearerHeader(token), "Bearer");
  }

  /**
   * `protect(req, res, next)`. Reads the store and never writes it. A header
   * that is absent or does not start with "Bearer" gets 400 "Access Token not
   * found"; a token that fails verification, or names no stored user (reading
   * `session_token` of null throws), gets 400 "Access not allowed"; a cookie
   * that differs from the stored session token gets 401 "User not allowed".
   * Otherwise `next()` runs once, with the user minus its password.
   */
  method Protect(db: Database.Db, authorization: Option<string>, cookie: Option<string>, nowMs: nat) returns (r: Outcome)
    ensures !HasBearerPrefix(authorization) ==> r == Reject(Reply(400, "Access Token not found"))
    ensures HasBearerPrefix(authorization) && (BearerSubject(authorization, nowMs).None? || BearerSubject(authorization, nowMs).value !in db.users)
            ==> r == Reject(Reply(400, "Access not allowed"))
    ensures forall uid | BearerSubject(authorization, nowMs) == Some(uid) && uid in db.users && cookie != Some(db.users[uid].sessionToken)
            :: r == Reject(Reply(401, "User not allowed"))
    ensures r.Next? ==> Admits(db.users, authorization, cookie, nowMs, r.user.id)
                        && r.user == WithoutPassword(r.user.id, db.users[r.user.id])
    ensures forall uid | Admits(db.users, authorization, cookie, nowMs, uid) :: r == Next(WithoutPassword(uid, db.users[uid]))
  {
    var token: Option<string> := None;
    // Nothing has been sent yet.
    r := Reject(Silent);
    var responded := false;
    if authorization.Some? && StartsWith(authorization.value, "Bearer") {
      token := BearerToken(authorization.value);
      var decoded := Jwt.Verify(token, nowMs);
      if decoded.None? || decoded.value !in db.users {
        // jwt.verify threw, or findById found nothing and `user.session_token` threw.
        r := Reject(Reply(400, "Access not allowed"));
        responded := true;
      } else {
        var user := db.users[decoded.value];
        if cookie == Some(user.sessionToken) {
          r := Next(WithoutPassword(decoded.value, user));
        } else {
          return Reject(Reply(401, "User not allowed"));
        }
      }
    }
    // A second answer after the catch would fail (headers already sent): the first one stands.
    if !Truthy(token) && !responded {
      r := Reject(Reply(400, "Access Token not found"));
    }
  }
}
