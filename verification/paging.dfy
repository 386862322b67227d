/**
 * Pagination of the user-posts listing: the page default, the int64 skip
 * offset, the last-page number, the `{userid: id}` filter and the skip/limit
 * window the store returns, and the reply the listing handler builds from them.
 */
module Paging {
  import opened Entities
  import opened PathIds

  /**
   * Page size; fixed in the handler. Contracts and proofs below write the
   * literal 2 where they multiply or divide by it, which keeps the solver's
   * arithmetic linear.
   */
  const PER_PAGE: int := 2
  /** The path prefix the listing handler strips to obtain the user id. */
  const LISTING_PREFIX := "/posts/users/"

  const TWO_TO_63: int := 0x8000_0000_0000_0000
  const TWO_TO_64: int := 0x1_0000_0000_0000_0000
  const INT64_MIN: int := -TWO_TO_63
  const INT64_MAX: int := TWO_TO_63 - 1
  /** The largest page whose skip offset `(page - 1) * 2` still fits in an int64. */
  const MAX_PAGE: int := 0x4000_0000_0000_0000

  predicate IsInt64(x: int) {
    INT64_MIN <= x <= INT64_MAX
  }

  /** Two's-complement wrap-around of Go's int64 arithmetic. */
  function Wrap64(x: int): (r: int)
    ensures IsInt64(r)
    ensures (x - r) % TWO_TO_64 == 0
    ensures IsInt64(x) ==> r == x
  {
    (x + TWO_TO_63) % TWO_TO_64 - TWO_TO_63
  }

  /** Wrap64 is the only int64 value congruent to `x`. */
  lemma Wrap64Unique(x: int, y: int)
    requires IsInt64(y) && (x - y) % TWO_TO_64 == 0
    ensures Wrap64(x) == y
  {
    var r := Wrap64(x);
    var d := r - y;
    assert d % TWO_TO_64 == 0;
    assert -TWO_TO_64 < d < TWO_TO_64;
  }

  /**
   * The page actually served: the 0 that the query parser gives for an absent
   * or unparsable `page` becomes 1; every other value, negative ones included,
   * is kept.
   */
  function EffectivePage(parsed: int): (page: int)
    ensures page != 0
    ensures parsed == 0 ==> page == 1
    ensures parsed != 0 ==> page == parsed
    ensures IsInt64(parsed) ==> IsInt64(page)
  {
    if parsed == 0 then 1 else parsed
  }

  /** `(int64(page) - 1) * perPage`, evaluated in int64 arithmetic. */
  function SkipOffset(page: int): (skip: int)
    requires IsInt64(page)
    ensures IsInt64(skip)
    ensures 1 <= page <= MAX_PAGE ==> skip == (page - 1) * 2 && skip >= 0
  {
    Wrap64(Wrap64(page - 1) * 2)
  }

  /**
   * The skip offset is non-negative exactly for pages 1 .. 2^62 and, through
   * int64 overflow, for the very negative pages above -2^63 up to -2^62;
   * page -2^63 + 1 even wraps round to skip 0.
   */
  lemma SkipOffsetSign(page: int)
    requires IsInt64(page)
    ensures SkipOffset(page) >= 0 <==> (1 <= page <= MAX_PAGE || INT64_MIN < page <= -MAX_PAGE)
    ensures page == INT64_MIN + 1 ==> SkipOffset(page) == 0
  {
    if page == INT64_MIN {
      Wrap64Unique(page - 1, INT64_MAX);
      Wrap64Unique(INT64_MAX * 2, -2);
    } else {
      var x := (page - 1) * 2;
      assert Wrap64(page - 1) == page - 1;
      if x > INT64_MAX {
        Wrap64Unique(x, x - TWO_TO_64);
      } else if x < INT64_MIN {
        Wrap64Unique(x, x + TWO_TO_64);
      }
    }
  }

  /** `total / perPage` with truncating integer division: the number of FULL pages. */
  function LastPage(total: nat): (last: nat)
    ensures last * 2 <= total < last * 2 + 2
  {
    total / 2
  }

  /**
   * The posts matching the filter `{userid: id}`, in collection order. An
   * equality filter never matches a document that lacks the field.
   */
  function OwnedBy(posts: seq<Post>, id: string): (r: seq<Post>)
    ensures |r| <= |posts|
    ensures forall p :: p in r ==> p.userId == Some(id)
    ensures forall p :: multiset(r)[p] == if p.userId == Some(id) then multiset(posts)[p] else 0
  {
    if posts == [] then []
    else
      var rest := OwnedBy(posts[1..], id);
      assert posts == [posts[0]] + posts[1..];
      if posts[0].userId == Some(id) then [posts[0]] + rest else rest
  }

  /** Filtering distributes over concatenation, so it keeps the collection order. */
  lemma {:induction false} OwnedByAppend(a: seq<Post>, b: seq<Post>, id: string)
    ensures OwnedBy(a + b, id) == OwnedBy(a, id) + OwnedBy(b, id)
    decreases |a|
  {
    if a == [] {
      assert a + b == b;
    } else {
      assert (a + b)[1..] == a[1..] + b;
      OwnedByAppend(a[1..], b, id);
    }
  }

  /**
   * `GET /posts/users/` asks for user id "". No post this service stores has
   * a `userid` field equal to "" (an empty one is omitted), so such a
   * collection lists nothing for it: total 0 and no posts on any page.
   */
  lemma EmptyUserIdListsNothing(posts: seq<Post>, parsed: int)
    requires IsInt64(parsed)
    requires forall p :: p in posts ==> p.userId != Some("")
    ensures var r := ListPosts(posts, LISTING_PREFIX, parsed);
      r.status == STATUS_OK ==> r.body.payload.total == 0 && r.body.payload.posts == []
  {
    StripRoundTrip(LISTING_PREFIX, "");
    assert LISTING_PREFIX + "" == LISTING_PREFIX;
  }

  /** The store's skip/limit window over an ordered result: empty once `skip` passes the end. */
  function Window(s: seq<Post>, skip: nat, limit: nat): (w: seq<Post>)
    ensures |w| == if skip >= |s| then 0 else if |s| - skip < limit then |s| - skip else limit
    ensures forall k :: 0 <= k < |w| ==> w[k] == s[skip + k]
  {
    if skip >= |s| then []
    else if |s| - skip < limit then s[skip..]
    else s[skip..skip + limit]
  }

  /**
   * The store's find with filter `{userid: id}`, skip and limit. A negative
   * skip is refused by the store (None), which the handler reports as 404.
   */
  function Find(posts: seq<Post>, id: string, skip: int, limit: nat): (r: Option<seq<Post>>)
    ensures r.None? <==> skip < 0
    ensures r.Some? ==> |r.value| <= limit && forall p :: p in r.value ==> p.userId == Some(id)
  {
    if skip < 0 then None else Some(Window(OwnedBy(posts, id), skip, limit))
  }

  /**
   * The reply of the listing handler for a request whose path is `path` and
   * whose `page` query parsed to `parsed`, against the posts collection `posts`.
   */
  function ListPosts(posts: seq<Post>, path: string, parsed: int): (r: Reply)
    requires IsInt64(parsed)
    ensures r.status == STATUS_OK || r == Reply(STATUS_NOT_FOUND, Message(POSTS_NOT_FOUND_TEXT))
    ensures r.status == STATUS_OK <==> SkipOffset(EffectivePage(parsed)) >= 0
    ensures r.status == STATUS_OK ==>
      && r.body.Listing?
      && |r.body.payload.posts| <= PER_PAGE
      && (forall p :: p in r.body.payload.posts ==> p.userId == Some(StripFirst(path, LISTING_PREFIX)))
      && r.body.payload.total == |OwnedBy(posts, StripFirst(path, LISTING_PREFIX))|
      && r.body.payload.page == EffectivePage(parsed)
      && r.body.payload.lastPage * 2 <= r.body.payload.total < r.body.payload.lastPage * 2 + 2
  {
    var id := StripFirst(path, LISTING_PREFIX);
    var page := EffectivePage(parsed);
    var total := |OwnedBy(posts, id)|;
    var cursor := Find(posts, id, SkipOffset(page), PER_PAGE);
    if cursor.None? then Reply(STATUS_NOT_FOUND, Message(POSTS_NOT_FOUND_TEXT))
    else Reply(STATUS_OK, Listing(Payload(cursor.value, total, page, LastPage(total))))
  }

  /**
   * The listing answers 200 exactly for pages 1 .. 2^62 (page 0 meaning 1) and
   * for the pages that int64 overflow turns into a non-negative skip.
   */
  lemma ServedPages(posts: seq<Post>, path: string, parsed: int)
    requires IsInt64(parsed)
    ensures var page := EffectivePage(parsed);
      ListPosts(posts, path, parsed).status == STATUS_OK <==> (1 <= page <= MAX_PAGE || INT64_MIN < page <= -MAX_PAGE)
  {
    SkipOffsetSign(EffectivePage(parsed));
  }

  /** Page `page` holds the user's matching posts from index `(page - 1) * 2` on, in order. */
  lemma PageContents(posts: seq<Post>, path: string, page: int)
    requires 1 <= page <= MAX_PAGE
    ensures var owned := OwnedBy(posts, StripFirst(path, LISTING_PREFIX));
      var r := ListPosts(posts, path, page);
      && r == Reply(STATUS_OK, Listing(Payload(Window(owned, (page - 1) * 2, PER_PAGE),
                                               |owned|, page, LastPage(|owned|))))
  {
  }

  /**
   * Every post of the user is listed, on page `k / 2 + 1` at position `k % 2`,
   * where `k` is its index among the user's posts.
   */
  lemma EveryPostListed(posts: seq<Post>, path: string, k: nat)
    requires k < |OwnedBy(posts, StripFirst(path, LISTING_PREFIX))| <= INT64_MAX
    ensures var r := ListPosts(posts, path, k / 2 + 1);
      && r.status == STATUS_OK
      && k % 2 < |r.body.payload.posts|
      && r.body.payload.posts[k % 2] == OwnedBy(posts, StripFirst(path, LISTING_PREFIX))[k]
  {
    var page := k / 2 + 1;
    PageContents(posts, path, page);
    assert (page - 1) * 2 + k % 2 == k;
  }

  /**
   * The reported last page undercounts: when the user has an odd number
   * `2 * last + 1` of posts, the reported last page is `last`, yet page
   * `last + 1` still holds one post; only the page after that is empty.
   */
  lemma PageAfterLastPage(posts: seq<Post>, path: string, last: nat)
    requires |OwnedBy(posts, StripFirst(path, LISTING_PREFIX))| == 2 * last + 1
    requires last < MAX_PAGE - 1
    ensures ListPosts(posts, path, last + 1).status == STATUS_OK
    ensures ListPosts(posts, path, last + 1).body.payload.lastPage == last
    ensures |ListPosts(posts, path, last + 1).body.payload.posts| == 1
    ensures ListPosts(posts, path, last + 2).status == STATUS_OK
    ensures ListPosts(posts, path, last + 2).body.payload.posts == []
  {
    PageContents(posts, path, last + 1);
    PageContents(posts, path, last + 2);
  }

  /**
   * Five posts for a user: pages 1, 2 and 3 hold 2, 2 and 1 of them, the
   * reported last page is 2, and an absent page parameter serves page 1.
   */
  lemma FivePosts(posts: seq<Post>, id: string)
    requires |OwnedBy(posts, id)| == 5
    ensures var path := LISTING_PREFIX + id;
      && |ListPosts(posts, path, 1).body.payload.posts| == 2
      && |ListPosts(posts, path, 2).body.payload.posts| == 2
      && |ListPosts(posts, path, 3).body.payload.posts| == 1
      && ListPosts(posts, path, 1).body.payload.lastPage == 2
      && ListPosts(posts, path, 0) == ListPosts(posts, path, 1)
  {
    StripRoundTrip(LISTING_PREFIX, id);
    var path := LISTING_PREFIX + id;
    PageContents(posts, path, 1);
    PageContents(posts, path, 2);
    PageContents(posts, path, 3);
  }
}
