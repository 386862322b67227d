/** The root handler's switch on the request method. */
module Router {
  import opened Entities

  const METHOD_GET := "GET"
  const METHOD_POST := "POST"

  /** Route patterns registered for reads: listing by user, post by id, user by id. */
  const GET_PATTERNS: seq<string> := ["/posts/users/", "/posts/", "/users/"]
  /** Route patterns registered for writes: create user, create post. */
  const POST_PATTERNS: seq<string> := ["/users", "/posts"]

  datatype Route =
    | Register(patterns: seq<string>)  // the handler asks the mux to register the method's routes
    | Refuse(reply: Reply)             // the request is answered directly

  /**
   * For a request that reaches the root handler: GET and POST register their
   * routes (methods are matched case-sensitively, as Go compares strings);
   * every other method gets 405.
   */
  function Dispatch(verb: string): (r: Route)
    ensures r.Refuse? <==> verb != METHOD_GET && verb != METHOD_POST
    ensures r.Refuse? ==> r.reply == Reply(STATUS_METHOD_NOT_ALLOWED, Message(METHOD_NOT_ALLOWED_TEXT))
    ensures verb == METHOD_GET ==> r == Register(GET_PATTERNS)
    ensures verb == METHOD_POST ==> r == Register(POST_PATTERNS)
  {
    if verb == METHOD_GET then Register(GET_PATTERNS)
    else if verb == METHOD_POST then Register(POST_PATTERNS)
    else Refuse(Reply(STATUS_METHOD_NOT_ALLOWED, Message(METHOD_NOT_ALLOWED_TEXT)))
  }
}
