/** What a handler hands back to Express: a response, or nothing, or an error. */
module Http {
  import opened Wrappers
  import opened ObjectIds
  import opened UserModel
  import opened ArticleModel

  /** What the response does to the client's `session_token` cookie. */
  datatype CookieAction =
    | KeepCookie
    | SetSessionCookie(token: string, expiresAt: nat)
    | ClearSessionCookie

  /** The JSON bodies the handlers send. */
  datatype Body =
    | Message(text: string)
    | Registered(email: string, username: string, password: string, profilePicture: string, token: string)
    | LoggedIn(email: string, username: string, profilePicture: string, articles: seq<ObjectId>, token: string)
    | UserDocument(id: ObjectId, user: User)
    | ArticleDocument(article: Article)
    | ArticleDocuments(documents: map<ObjectId, Article>)

  datatype Response =
    | Sent(status: nat, body: Body, cookie: CookieAction)
      /** A `catch` that only logs: no response is sent. */
    | Silent
      /** An exception passed on by express-async-handler; Express's default handler answers 500. */
    | Uncaught(error: string)

  function Reply(status: nat, text: string): Response {
    Sent(status, Message(text), KeepCookie)
  }

  /** JavaScript truthiness of an optional string field: present and non-empty. */
  predicate Truthy(v: Option<string>) {
    v.Some? && v.value != ""
  }
}
