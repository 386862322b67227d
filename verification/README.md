# InstaAPI handler logic in Dafny

InstaAPI is a small HTTP service over a MongoDB database named `DataBase`. The database has two collections, `users` and `posts`. This project models the decision logic of the service's handlers, without the driver and the HTTP plumbing:

- **Sign-up (`POST /users`).** A request whose email does not parse gets 400. Otherwise the handler scans the stored users and answers 409 at the first exact email match. Otherwise it stores the user with the password replaced by its digest, and answers 201.
- **User-posts listing (`GET /posts/users/{id}?page=N`).** A `page` that parsed to 0 becomes 1. The page size is 2. The skip offset is `(page-1)*2`, computed in int64 arithmetic with its wrap-around written out. `lastpage` is `total / 2`, rounded down. The posts returned are the skip/limit window of the posts whose `userid` equals the id from the path, in collection order. The payload echoes `total`, `page` and `lastpage`.
- **Id extraction from the path.** This is `strings.Replace(path, prefix, "", 1)`, which deletes the first occurrence of the prefix wherever it stands.
- **The root handler's method switch.** For a request that reaches the root handler, GET and POST register their routes, and every other method gets 405.

The collections are sequences, held in the `Database` class. Email parsing (`mail.ParseAddress`) and the MD5/hex password digest are library calls. They stay uninterpreted: the handlers take them as the two function-valued fields of `Entities.Libraries`.

Module layout:

- `entities.dfy`: documents, payload, replies, status codes and the fixed message texts.
- `path_ids.dfy`: first-occurrence search and prefix stripping.
- `router.dfy`: the method switch.
- `paging.dfy`: page default, int64 skip, last page, filter, window, and the listing reply as a function.
- `signup.dfy`: the admission rule as a function, with its invariants.
- `handlers.dfy`: the two endpoints as methods with loops, each proved equal to its function.

Results proved about the listing:

- `lastpage` counts only full pages. When the user has an odd number of posts, page `lastpage + 1` still holds one post (`Paging.PageAfterLastPage`). For example, five posts give `lastpage` 2, yet page 3 holds one post (`Paging.FivePosts`).
- Every post of the user appears on exactly the page its index predicts (`Paging.EveryPostListed`).
- Because the skip is an int64, the listing answers 200 for pages 1 to 2^62. Through overflow, it also answers 200 for pages from -2^63+1 up to -2^62. Page -2^63+1 even wraps to skip 0 and serves the first posts. All other pages get 404 (`Paging.ServedPages`, `Paging.SkipOffsetSign`).

The 404 rests on one assumption about the store: it refuses a find whose skip is negative. MongoDB's `find` command does this, and the handler turns any find error into 404 (src/main.go:244-250). Store failures of other kinds are not modelled.

## Model

| member | source | states |
|---|---|---|
| `PathIds.Index` | src/main.go:212 | returns -1 exactly when the prefix occurs nowhere, else the position of an occurrence with none before it (the first match `strings.Replace` deletes) |
| `PathIds.StripFirst` | src/main.go:212 | the path with the first occurrence of the prefix removed: either unchanged or shorter by the prefix length, and exactly the rest of the path when it starts with the prefix |
| `PathIds.StripRoundTrip` | src/main.go:151 | stripping the prefix from `prefix + id` gives back `id`, for every id |
| `PathIds.StripAbsent` | src/main.go:179 | a path that does not contain the prefix is used unchanged as the id |
| `PathIds.StripFirstOccurrence` | src/main.go:212 | when the prefix first occurs at `i`, only that occurrence is removed, and the path shrinks by the prefix length |
| `Router.Dispatch` | src/main.go:293-303 | 405 with "Method Not Allowed Try Again!" exactly for methods other than GET and POST; GET registers the three read routes, POST the two create routes |
| `Paging.Wrap64` | src/main.go:240 | the result is the int64 value congruent to the input modulo 2^64, and equals the input when it already fits |
| `Paging.EffectivePage` | src/main.go:222-227 | the served page is never 0: a parsed 0 becomes 1, and any other value, including a negative one, is kept |
| `Paging.SkipOffset` | src/main.go:240 | the skip is an int64; for pages 1 to 2^62 it is exactly `(page-1)*2` and non-negative |
| `Paging.SkipOffsetSign` | src/main.go:240 | the skip is non-negative iff the page is in 1..2^62 or in -2^63+1..-2^62; page -2^63+1 wraps to skip 0 |
| `Paging.LastPage` | src/main.go:231-237 | `lastpage*2 <= total < lastpage*2 + 2`: floor division, so a partial last page is not counted |
| `Paging.OwnedBy` | src/main.go:215 | the filter result holds only posts whose `userid` field is present and equal to the id, and each such post as often as in the collection |
| `Paging.OwnedByAppend` | src/main.go:215 | filtering distributes over concatenation, so the result keeps collection order |
| `Paging.EmptyUserIdListsNothing` | src/main.go:34 | `GET /posts/users/` (user id "") lists no posts and total 0 on a collection where no post has a `userid` field equal to "", as with every post this service stores |
| `Paging.Window` | src/main.go:240-241 | skip/limit: at most `limit` elements, element `k` is element `skip + k` of the input, and the window is empty past the end |
| `Paging.Find` | src/main.go:244-250 | the query fails exactly on a negative skip; otherwise it returns at most `limit` posts, all of the user |
| `Paging.ListPosts` | src/main.go:203-267 | 404 with the fixed message, or 200 with at most 2 posts all of the path's user; total is the user's post count, page is the effective page, lastpage is floor(total/2); 200 iff the skip is non-negative |
| `Paging.ServedPages` | src/main.go:222-250 | the listing answers 200 exactly for effective pages 1..2^62 and -2^63+1..-2^62 |
| `Paging.PageContents` | src/main.go:231-264 | for pages 1..2^62 the reply is 200 with the window of the user's posts at `(page-1)*2`, the user's post count, the page and floor(total/2) |
| `Paging.EveryPostListed` | src/main.go:240-259 | the user's `k`-th post is at position `k % 2` of page `k / 2 + 1` |
| `Paging.PageAfterLastPage` | src/main.go:231-241 | with `2*last + 1` posts, the reported lastpage is `last`, yet page `last + 1` holds one post; page `last + 2` is empty |
| `Paging.FivePosts` | src/main.go:222-264 | five posts: pages 1, 2, 3 hold 2, 2, 1 posts, lastpage is 2, and a missing page serves page 1 |
| `Signup.Stored` | src/main.go:111 | the stored record keeps the request's name and email and holds the digest of its password |
| `Signup.Admit` | src/main.go:88-113 | exactly one of 400 (malformed email), 409 (email taken) or 201 (one record appended, with name and email as sent and the digested password); 400 and 409 leave the collection unchanged |
| `Signup.InvalidEmailIgnoresUsers` | src/main.go:88-93 | a malformed email gets the same 400 whatever users are stored, and nothing is inserted |
| `Signup.AdmitKeepsEmailsUnique` | src/main.go:96-113 | if stored emails are pairwise distinct before a sign-up, they are after it |
| `Signup.AdmittedEmailTaken` | src/main.go:96-113 | after any request with a well-formed email, that email is registered |
| `Signup.SameEmailTwice` | src/main.go:96-113 | two sequential sign-ups with the same fresh, well-formed email: 201 then 409, and the second stores nothing |
| `Handlers.CreateUserEndpoint` | src/main.go:75-120 | the reply and the new users collection are those of `Admit` on the old collection; posts are unchanged |
| `Handlers.GetPostsByUserIDEndpoint` | src/main.go:203-267 | the reply built by appending the cursor's posts equals `ListPosts` on the posts collection |

## Left out

- MongoDB driver calls (`Find`, `FindOne`, `CountDocuments`, `InsertOne`, cursors, contexts and their 10-second timeouts) are external I/O. The collections are sequences, and count and find are functions over them.
- Errors the handlers ignore are not modelled. These are a failed `CountDocuments`, which would report total 0; a failed user `Find` before the scan; and decode errors of the request body and of cursor documents.
- Signup.Admit: a failed `InsertOne` (src/main.go:113) is not modelled. That happens with a duplicate client-supplied `_id` or a timeout. The handler then still writes 201 with body `null` and stores nothing, and it panics on the nil result at src/main.go:118. The model's 201 always means that one record was appended.
- Store-generated identifiers are not modelled. This includes the `InsertedID` of the 201 acknowledgement and a client-supplied `_id` in the request body.
- `mail.ParseAddress` (the RFC 5322 address grammar) and MD5 with hex encoding are foreign library calls. They are uninterpreted parameters.
- `strconv.Atoi` is not modelled. It returns a Go `int`, which the model takes to be 64 bits wide, as on 64-bit platforms. The listing takes that result as input. `Atoi` gives 0 for an absent or non-numeric `page`, and the clamped int64 minimum or maximum for an out-of-range numeral.
- `Paging.LastPage`: `math.Ceil` and the `float64` conversion are not modelled. They change nothing after the integer division, except for float64 rounding above 2^53, which is not modelled.
- HTTP response writing, headers, JSON encoding and `omitempty` are I/O plumbing. With `omitempty`, zero-valued payload fields are dropped from the JSON.
- `time.Now`, the post timestamp and its "Mon Jan _2" formatting are wall-clock and formatting library code. `Post.postedAt` is an opaque integer.
- `CreatePostEndpoint`, `GetUserByIDEndpoint` and `GetPostByIDEndpoint` are plain store calls with no decision logic. Only their path-id extraction is covered, by the `PathIds` lemmas.
- Router.Dispatch: `ServeMux` behaviour and server start-up are library routing and networking, and are not modelled. `Router.Dispatch` models only the method switch of the root handler and the patterns that switch registers. The mux behaviour it leaves out:
  - The request that triggers the registration itself gets an empty 200.
  - The patterns are registered without a method, so once registered they serve every method. After the first GET, `DELETE /posts/users/x` runs the listing. After the first POST, `PUT /users` runs sign-up.
  - The 405 therefore holds only for requests that still reach the root handler.
  - Registering a pattern twice makes `HandleFunc` panic. So a later GET or POST that reaches the root handler, such as `GET /`, gets no reply.
- Paging.OwnedBy: a missing `userid` field is `None` and never matches, which is how MongoDB's equality filter treats it. Because of `omitempty` (src/main.go:34), a post created with an empty user id is stored without the field, so this service's own posts never show up under `GET /posts/users/`. Post creation itself is not modelled, so the model does not derive that `None` from an empty id.
- Concurrency between requests is not modelled, including the race between the duplicate scan and the insert. The model is sequential.
