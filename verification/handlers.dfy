/**
 * The two endpoints with decision logic, as the step-by-step handlers they
 * are, over the `DataBase` store and its two collections.
 */
module Handlers {
  import opened Entities
  import opened PathIds
  import opened Paging
  import opened Signup

  /** The document store shared by all handlers: the `users` and `posts` collections, in insertion order. */
  class Database {
    var users: seq<User>
    var posts: seq<Post>

    constructor (users: seq<User>, posts: seq<Post>)
      ensures this.users == users && this.posts == posts
    {
      this.users := users;
      this.posts := posts;
    }
  }

  /**
   * POST /users: reject a malformed email, scan the users for the same email
   * and stop at the first match, otherwise insert the user with its password
   * digested. The posts collection is untouched.
   */
  method CreateUserEndpoint(db: Database, req: User, lib: Libraries) returns (reply: Reply)
    modifies db
    ensures Outcome(reply, db.users) == Admit(old(db.users), req, lib)
    ensures db.posts == old(db.posts)
  {
    var cursor := db.users;
    if !lib.validEmail(req.email) {
      return Reply(STATUS_BAD_REQUEST, Message(INVALID_EMAIL_TEXT));
    }
    var i := 0;
    while i < |cursor|
      invariant 0 <= i <= |cursor|
      invariant forall j :: 0 <= j < i ==> cursor[j].email != req.email
    {
      if cursor[i].email == req.email {
        return Reply(STATUS_CONFLICT, Message(DUPLICATE_EMAIL_TEXT));
      }
      i := i + 1;
    }
    db.users := db.users + [Stored(req, lib)];
    reply := Reply(STATUS_CREATED, InsertAck);
  }

  /**
   * GET /posts/users/{id}?page=N, where `parsed` is what the query parser
   * made of N: the page window of the user's posts with total, page and last
   * page, or 404 when the store refuses the query.
   */
  method GetPostsByUserIDEndpoint(db: Database, path: string, parsed: int) returns (reply: Reply)
    requires IsInt64(parsed)
    ensures reply == ListPosts(db.posts, path, parsed)
  {
    var userId := StripFirst(path, LISTING_PREFIX);
    var page := parsed;
    if page == 0 {
      page := 1;
    }
    var total := |OwnedBy(db.posts, userId)|;
    var lastPage := total / PER_PAGE;
    var cursor := Find(db.posts, userId, SkipOffset(page), PER_PAGE);
    if cursor.None? {
      return Reply(STATUS_NOT_FOUND, Message(POSTS_NOT_FOUND_TEXT));
    }
    var posts: seq<Post> := [];
    var i := 0;
    while i < |cursor.value|
      invariant 0 <= i <= |cursor.value|
      invariant posts == cursor.value[..i]
    {
      posts := posts + [cursor.value[i]];
      i := i + 1;
    }
    assert posts == cursor.value;
    reply := Reply(STATUS_OK, Listing(Payload(posts, total, page, lastPage)));
  }
}
