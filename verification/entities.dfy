/** The documents, the listing payload and the HTTP replies of the service. */
module Entities {

  /** A document of the `users` collection. The store-generated identifier is not modelled. */
  datatype User = User(name: string, email: string, password: string)

  datatype Option<T> = None | Some(value: T)

  /**
   * A document of the `posts` collection; `postedAt` stands for the server-assigned timestamp.
   * `userId` is `None` when the document has no `userid` field at all: the field
   * is written with `omitempty`, so a post created with an empty user id is
   * stored without it, and `Some("")` only arises from documents other writers stored.
   */
  datatype Post = Post(userId: Option<string>, caption: string, imageUrl: string, postedAt: int)

  /** The body of a successful user-posts listing. */
  datatype Payload = Payload(posts: seq<Post>, total: int, page: int, lastPage: int)

  /** What a handler writes after the status line. */
  datatype Body =
    | Message(text: string)  // a fixed error text
    | Listing(payload: Payload)
    | InsertAck  // the store's acknowledgement of an insert (its identifier is not modelled)

  datatype Reply = Reply(status: int, body: Body)

  /**
   * The two library calls the handlers depend on, left uninterpreted:
   * `validEmail` is "the address parses as a mailbox" and `digest` is the hex password digest.
   */
  datatype Libraries = Libraries(validEmail: string -> bool, digest: string -> string)

  const STATUS_OK := 200
  const STATUS_CREATED := 201
  const STATUS_BAD_REQUEST := 400
  const STATUS_NOT_FOUND := 404
  const STATUS_METHOD_NOT_ALLOWED := 405
  const STATUS_CONFLICT := 409

  const INVALID_EMAIL_TEXT := "{\"message\": \"ERROR!!! Please Enter Proper Email ID\"}"
  const DUPLICATE_EMAIL_TEXT := "{\"message\": \"ERROR!!! Email ID has been already used. Please Use Different Email\"}"
  const POSTS_NOT_FOUND_TEXT := "{\"message\": \"ERROR!!! Posts NOT Found for given UserID\"}"
  const METHOD_NOT_ALLOWED_TEXT := "Method Not Allowed Try Again!\n"
}
