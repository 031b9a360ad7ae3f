/**
 Paging through the timeline by the (created, id) cursor: the server's limit-plus-one
 handler and the client that appends page after page, over a table that stays fixed.
 */
module MomentPaging {
  import opened Wrappers
  import opened TextOrder
  import opened Select
  import opened MomentQuery

  const TIMELINE_MAX: int := 30
  const TIMELINE_DEFAULT: int := 10
  const PAGE: int := 10

  /** Latest first; equal times by id, descending. */
  predicate Newer(a: Row, b: Row) {
    b.created < a.created || (b.created == a.created && TextLess(b.id, a.id))
  }

  /** The primary key of the table. */
  ghost predicate Keyed(table: seq<Row>) {
    forall i, j :: 0 <= i < j < |table| ==> table[i].id != table[j].id
  }

  lemma KeyedRows(table: seq<Row>, a: Row, b: Row)
    requires Keyed(table) && a in table && b in table && a.id == b.id
    ensures a == b
  {
    var i :| 0 <= i < |table| && table[i] == a;
    var j :| 0 <= j < |table| && table[j] == b;
  }

  lemma NewerOrders(table: seq<Row>)
    requires Keyed(table)
    ensures Orders(table, Newer) && Unrepeated(table)
  {
    forall x | x in table
      ensures !Newer(x, x)
    {
      TextIrreflexive(x.id);
    }
    forall x, y | x in table && y in table && x != y
      ensures Newer(x, y) || Newer(y, x)
    {
      TextTotal(x.id, y.id);
      if x.id == y.id {
        KeyedRows(table, x, y);
      }
    }
    forall x, y, z | x in table && y in table && z in table && Newer(x, y) && Newer(y, z)
      ensures Newer(x, z)
    {
      if TextLess(y.id, x.id) && TextLess(z.id, y.id) {
        TextTransitive(z.id, y.id, x.id);
      }
    }
  }

  function ClampLimit(limit: Option<int>): (n: int)
    ensures 1 <= n <= 30
    ensures limit.None? || limit.value <= 0 ==> n == 10
    ensures limit.Some? && limit.value > 0 && n != limit.value ==> n == 30 < limit.value
  {
    match limit
    case Some(n) => if n > 0 then (if n < TIMELINE_MAX then n else TIMELINE_MAX) else TIMELINE_DEFAULT
    case None => TIMELINE_DEFAULT
  }

  /** The condition of a generated query as a test on rows. */
  function Matches(q: Query): Row -> bool {
    (row: Row) => Eval(q.where, row, q.binds)
  }

  /** Running a generated query; the limit is read through its placeholder. */
  function Execute(table: seq<Row>, q: Query): seq<Row> {
    match Bound(q.binds, q.limitMark)
    case Some(Int(limit)) => Answer(table, Matches(q), Newer, limit)
    case _ => []
  }

  /** Everything the viewer gets to see, newest first. */
  ghost function Feed(table: seq<Row>, viewer: User, friends: seq<User>, author: Option<User>): seq<Row> {
    Whole(table, WantedBy(viewer, friends, author, None, None), Newer)
  }

  /** `moment.timeline`: one row more than asked for tells whether there is more. */
  method Timeline(table: seq<Row>, viewer: User, friends: seq<User>, author: Option<User>,
                  before: Option<int>, beforeId: Option<string>, limit: Option<int>)
    returns (posts: seq<Row>, hasMore: bool)
    ensures
      var all := Whole(table, WantedBy(viewer, friends, author, before, beforeId), Newer);
      posts == Take(all, ClampLimit(limit)) && (hasMore <==> |all| > ClampLimit(limit))
  {
    hide Eval, InRange;
    var n := ClampLimit(limit);
    var q := TimelineQuery(viewer, friends, author, before, beforeId, n + 1);
    SameAnswer(table, Matches(q), WantedBy(viewer, friends, author, before, beforeId), Newer);
    var rows := Execute(table, q);
    hasMore := |rows| > n;
    var take := if |rows| < n then |rows| else n;
    posts := rows[..take];
  }

  /** Exactly the posts the viewer may see, each once, newest first. */
  lemma FeedMeaning(table: seq<Row>, viewer: User, friends: seq<User>, author: Option<User>)
    requires Keyed(table)
    ensures
      var feed := Feed(table, viewer, friends, author);
      && Sorted(feed, Newer) && Unrepeated(feed)
      && forall row :: row in feed <==>
                         row in table && Visible(row, viewer, friends) && (author.Some? ==> row.author == author.value)
  {
    var feed := Feed(table, viewer, friends, author);
    NewerOrders(table);
    WholeSorted(table, WantedBy(viewer, friends, author, None, None), Newer);
    forall i, j | 0 <= i < j < |feed|
      ensures feed[i] != feed[j]
    {
      assert Newer(feed[i], feed[j]);
      TextIrreflexive(feed[i].id);
    }
  }

  /** Asking with the last post as cursor continues the feed right behind it, ties included. */
  lemma FeedContinues(
    table: seq<Row>, viewer: User, friends: seq<User>, author: Option<User>, k: nat)
    requires Keyed(table)
    requires 0 < k <= |Feed(table, viewer, friends, author)|
    ensures
      var feed := Feed(table, viewer, friends, author);
      var last := feed[k - 1];
      Whole(table, WantedBy(viewer, friends, author, Some(last.created), Some(last.id)), Newer) == feed[k..]
  {
    NewerOrders(table);
    var last := Feed(table, viewer, friends, author)[k - 1];
    ContinueAfter(table, WantedBy(viewer, friends, author, None, None),
                  WantedBy(viewer, friends, author, Some(last.created), Some(last.id)), Newer, k);
  }

  /** Following the cursor with any requested limit ends with the whole feed. */
  method FollowCursor(table: seq<Row>, viewer: User, friends: seq<User>, author: Option<User>, limit: Option<int>)
    returns (all: seq<Row>)
    requires Keyed(table)
    ensures all == Feed(table, viewer, friends, author)
  {
    hide Whole, Wanted, Visible, BeforeCursor, WantedBy, Keyed;
    ghost var feed := Feed(table, viewer, friends, author);
    var hasMore;
    all, hasMore := Timeline(table, viewer, friends, author, None, None, limit);
    while hasMore
      invariant 0 < |all| <= |feed| || !hasMore
      invariant |all| <= |feed| && all == feed[..|all|]
      invariant hasMore <==> |all| < |feed|
      decreases |feed| - |all|
    {
      var last := all[|all| - 1];
      FeedContinues(table, viewer, friends, author, |all|);
      var posts;
      posts, hasMore := Timeline(table, viewer, friends, author, Some(last.created), Some(last.id), limit);
      assert posts == feed[|all|..|all| + |posts|];
      all := all + posts;
    }
  }

  /** The rows whose id has not been seen yet. */
  function Unseen(posts: seq<Row>, seen: set<string>): seq<Row> {
    if posts == [] then []
    else if posts[0].id in seen then Unseen(posts[1..], seen)
    else [posts[0]] + Unseen(posts[1..], seen)
  }

  /** Exactly the unseen posts, in their order. */
  lemma {:induction false} UnseenMeaning(posts: seq<Row>, seen: set<string>)
    ensures Unseen(posts, seen) == Filter(posts, (p: Row) => p.id !in seen)
  {
    if posts != [] {
      UnseenMeaning(posts[1..], seen);
    }
  }

  lemma {:induction false} NothingSeen(posts: seq<Row>, seen: set<string>)
    requires forall p :: p in posts ==> p.id !in seen
    ensures Unseen(posts, seen) == posts
  {
    if posts != [] {
      NothingSeen(posts[1..], seen);
    }
  }

  lemma FeedIdsDistinct(
    table: seq<Row>, viewer: User, friends: seq<User>, author: Option<User>, k: nat, row: Row)
    requires Keyed(table) && k <= |Feed(table, viewer, friends, author)|
    requires row in Feed(table, viewer, friends, author)[k..]
    ensures forall p :: p in Feed(table, viewer, friends, author)[..k] ==> p.id != row.id
  {
    hide Feed, Keyed, Sorted, Visible;
    var feed := Feed(table, viewer, friends, author);
    FeedMeaning(table, viewer, friends, author);
    forall p | p in feed[..k]
      ensures p.id != row.id
    {
      var i :| 0 <= i < |feed[..k]| && feed[..k][i] == p;
      var j :| 0 <= j < |feed[k..]| && feed[k..][j] == row;
      assert feed[i] == p && feed[k + j] == row;
      if p.id == row.id {
        KeyedRows(table, p, row);
      }
    }
  }

  /** The client-side list of posts. */
  class MomentsClient {
    var posts: seq<Row>
    var hasMore: bool
    var author: Option<User>

    constructor (author: Option<User>)
      ensures posts == [] && !hasMore && this.author == author
    {
      posts, hasMore, this.author := [], false, author;
    }

    /** The list shows the first `|posts|` entries of the feed and knows whether any are missing. */
    ghost predicate Shows(table: seq<Row>, viewer: User, friends: seq<User>)
      reads this
    {
      var feed := Feed(table, viewer, friends, author);
      |posts| <= |feed| && posts == feed[..|posts|] && (hasMore <==> |posts| < |feed|)
    }

    /**
     One page: a refresh re-reads what is shown, an append continues behind the last post
     and drops whatever is already there.
     */
    method FetchPage(append: bool, table: seq<Row>, viewer: User, friends: seq<User>)
      requires Keyed(table)
      requires append && posts != [] ==> Shows(table, viewer, friends)
      modifies this`posts, this`hasMore
      ensures Shows(table, viewer, friends)
      ensures
        var feed := Feed(table, viewer, friends, author);
        var reach := if append then |old(posts)| + 10
                     else if |old(posts)| <= 10 then 10
                     else if |old(posts)| <= 30 then |old(posts)| else 30;
        |posts| == if reach < |feed| then reach else |feed|
    {
      hide Whole, Wanted, Visible, BeforeCursor, WantedBy, Keyed, Unseen;
      ghost var feed := Feed(table, viewer, friends, author);
      var limit := if append then PAGE else if PAGE < |posts| then |posts| else PAGE;
      var before, beforeId := None, None;
      if append && posts != [] {
        var last := posts[|posts| - 1];
        before, beforeId := Some(last.created), Some(last.id);
        FeedContinues(table, viewer, friends, author, |posts|);
      }
      var page, more := Timeline(table, viewer, friends, author, before, beforeId, Some(limit));
      if !append {
        posts, hasMore := page, more;
        return;
      }
      ghost var k := |posts|;
      assert page == feed[k..k + |page|];
      var seen := set p | p in posts :: p.id;
      forall p | p in page
        ensures p.id !in seen
      {
        assert p in feed[k..];
        FeedIdsDistinct(table, viewer, friends, author, k, p);
      }
      NothingSeen(page, seen);
      posts := posts + Unseen(page, seen);
      hasMore := more;
    }

    /** Refreshing and then loading more until there is no more shows the whole feed. */
    method LoadAll(table: seq<Row>, viewer: User, friends: seq<User>)
      requires Keyed(table)
      modifies this`posts, this`hasMore
      ensures posts == Feed(table, viewer, friends, author)
    {
      FetchPage(false, table, viewer, friends);
      while hasMore
        invariant Shows(table, viewer, friends)
        decreases |Feed(table, viewer, friends, author)| - |posts|
      {
        FetchPage(true, table, viewer, friends);
      }
    }
  }
}
