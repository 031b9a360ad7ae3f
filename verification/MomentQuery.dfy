/**
 Who sees a post: the WHERE clause the timeline query is generated with, its numbered
 placeholders and bind vector, the plain predicate it has to mean, and the access check
 used on single posts.
 */
module MomentQuery {
  import opened Wrappers
  import opened TextOrder

  const AUDIENCE_MAX: nat := 200
  const KEY_MIN: nat := 16

  type User = string

  datatype Visibility = Public | Friends | Partial | Exclude

  datatype Row = Row(id: string, author: User, visibility: Visibility, audience: set<User>, created: int)

  // ---- clauses ----

  datatype Bind = Text(s: string) | Int(i: int)

  datatype Column = AuthorId | CreatedAt | PostId

  /** A condition over one row; a mark `n` stands for the placeholder `$n`, counted from one. */
  datatype Clause =
    | Equals(col: Column, mark: nat)
    | Less(col: Column, mark: nat)
    | OneOf(col: Column, marks: seq<nat>)
    | VisibilityIn(kinds: set<Visibility>)
    | InAudience(mark: nat)
    | Not(inner: Clause)
    | All(parts: seq<Clause>)
    | Any(parts: seq<Clause>)

  function Cell(row: Row, col: Column): Bind {
    match col
    case AuthorId => Text(row.author)
    case CreatedAt => Int(row.created)
    case PostId => Text(row.id)
  }

  /** The value a placeholder is bound to; a placeholder out of range compares as nothing. */
  function Bound(binds: seq<Bind>, mark: nat): Option<Bind> {
    if 1 <= mark <= |binds| then Some(binds[mark - 1]) else None
  }

  predicate CellLess(cell: Bind, bound: Option<Bind>) {
    match (cell, bound)
    case (Int(a), Some(Int(b))) => a < b
    case (Text(a), Some(Text(b))) => TextLess(a, b)
    case _ => false
  }

  predicate Eval(c: Clause, row: Row, binds: seq<Bind>) {
    match c
    case Equals(col, mark) => Bound(binds, mark) == Some(Cell(row, col))
    case Less(col, mark) => CellLess(Cell(row, col), Bound(binds, mark))
    case OneOf(col, marks) => exists k :: 0 <= k < |marks| && Bound(binds, marks[k]) == Some(Cell(row, col))
    case VisibilityIn(kinds) => row.visibility in kinds
    case InAudience(mark) => exists u :: u in row.audience && Bound(binds, mark) == Some(Text(u))
    case Not(inner) => !Eval(inner, row, binds)
    case All(parts) => forall k :: 0 <= k < |parts| ==> Eval(parts[k], row, binds)
    case Any(parts) => exists k :: 0 <= k < |parts| && Eval(parts[k], row, binds)
  }

  /** Every placeholder of the clause lies in `1 .. n`. */
  predicate InRange(c: Clause, n: nat) {
    match c
    case Equals(_, mark) => 1 <= mark <= n
    case Less(_, mark) => 1 <= mark <= n
    case OneOf(_, marks) => forall k :: 0 <= k < |marks| ==> 1 <= marks[k] <= n
    case VisibilityIn(_) => true
    case InAudience(mark) => 1 <= mark <= n
    case Not(inner) => InRange(inner, n)
    case All(parts) => forall k :: 0 <= k < |parts| ==> InRange(parts[k], n)
    case Any(parts) => forall k :: 0 <= k < |parts| ==> InRange(parts[k], n)
  }

  /** Binding more values later neither breaks nor changes a clause whose placeholders are in range. */
  lemma {:induction false} EvalExtended(c: Clause, row: Row, binds: seq<Bind>, more: seq<Bind>)
    requires InRange(c, |binds|)
    ensures InRange(c, |binds + more|)
    ensures Eval(c, row, binds + more) == Eval(c, row, binds)
    decreases c
  {
    match c {
      case Not(inner) => EvalExtended(inner, row, binds, more);
      case All(parts) =>
        forall k | 0 <= k < |parts|
          ensures InRange(parts[k], |binds + more|) && Eval(parts[k], row, binds + more) == Eval(parts[k], row, binds)
        {
          EvalExtended(parts[k], row, binds, more);
        }
      case Any(parts) =>
        forall k | 0 <= k < |parts|
          ensures InRange(parts[k], |binds + more|) && Eval(parts[k], row, binds + more) == Eval(parts[k], row, binds)
        {
          EvalExtended(parts[k], row, binds, more);
        }
      case _ =>
    }
  }

  // ---- what the clause has to mean ----

  /** The timeline's visibility rule. */
  predicate Visible(row: Row, viewer: User, friends: seq<User>) {
    || row.author == viewer
    || (row.author in friends && row.visibility in {Public, Exclude} && viewer !in row.audience)
    || (row.visibility == Partial && viewer in row.audience)
    || (row.visibility == Friends && row.author in friends)
  }

  /** Strictly older than the cursor; equal times are ordered by id when the id is given. */
  predicate BeforeCursor(row: Row, before: Option<int>, beforeId: Option<string>) {
    match before
    case None => true
    case Some(at) =>
      row.created < at || (beforeId.Some? && row.created == at && TextLess(row.id, beforeId.value))
  }

  predicate Wanted(row: Row, viewer: User, friends: seq<User>, author: Option<User>,
                   before: Option<int>, beforeId: Option<string>)
  {
    && Visible(row, viewer, friends)
    && (author.Some? ==> row.author == author.value)
    && BeforeCursor(row, before, beforeId)
  }

  /**
   What is wanted, audience by audience: one's own posts always; those of friends unless kept
   from the viewer; a partial post by anybody if it lists the viewer. A cursor lets through what
   is older, and of the posts made at the same time those with a smaller id, if an id is given.
   */
  lemma WantedMeaning(row: Row, viewer: User, friends: seq<User>, author: Option<User>,
                      before: Option<int>, beforeId: Option<string>)
    ensures
      var friend := row.author in friends;
      Wanted(row, viewer, friends, author, before, beforeId) <==>
      && (row.author != viewer ==>
            match row.visibility
            case Public => friend && viewer !in row.audience
            case Friends => friend
            case Partial => viewer in row.audience
            case Exclude => friend && viewer !in row.audience)
      && (author == None || author == Some(row.author))
      && (forall at :: before == Some(at) ==>
            && row.created <= at
            && (row.created == at ==> beforeId.Some? && TextLess(row.id, beforeId.value)))
  {
  }

  /** Consecutive placeholder numbers. */
  function Marks(start: nat, count: nat): (marks: seq<nat>)
    ensures |marks| == count && forall k :: 0 <= k < count ==> marks[k] == start + k
  {
    seq(count, k => start + k)
  }

  /** A fragment with the binds pushed so far means `meaning`, on every row. */
  ghost predicate Means(c: Clause, binds: seq<Bind>, meaning: Row -> bool) {
    InRange(c, |binds|) && forall row :: Eval(c, row, binds) == meaning(row)
  }

  lemma MeansExtended(c: Clause, binds: seq<Bind>, more: seq<Bind>, meaning: Row -> bool)
    requires Means(c, binds, meaning)
    ensures Means(c, binds + more, meaning)
  {
    forall row: Row
      ensures InRange(c, |binds + more|) && Eval(c, row, binds + more) == meaning(row)
    {
      EvalExtended(c, row, binds, more);
    }
    EvalExtended(c, Row("", "", Public, {}, 0), binds, more);
  }

  // ---- meanings of the fragments ----

  ghost function ByAuthor(user: User): Row -> bool {
    (row: Row) => row.author == user
  }

  ghost function ByFriend(friends: seq<User>): Row -> bool {
    (row: Row) => row.author in friends
  }

  ghost function Shown(viewer: User): Row -> bool {
    (row: Row) => viewer in row.audience
  }

  /** The friend list pushed as binds, and the placeholders that name it. */
  lemma FriendMarks(binds: seq<Bind>, friends: seq<User>, pushed: seq<Bind>)
    requires |pushed| == |friends| && forall k :: 0 <= k < |friends| ==> pushed[k] == Text(friends[k])
    ensures Means(OneOf(AuthorId, Marks(|binds| + 1, |friends|)), binds + pushed, ByFriend(friends))
  {
    var all, marks := binds + pushed, Marks(|binds| + 1, |friends|);
    forall k | 0 <= k < |friends|
      ensures Bound(all, marks[k]) == Some(Text(friends[k]))
    {
      assert all[|binds| + k] == pushed[k];
    }
    forall row: Row
      ensures Eval(OneOf(AuthorId, marks), row, all) == (row.author in friends)
    {
      if row.author in friends {
        var k :| 0 <= k < |friends| && friends[k] == row.author;
        assert Bound(all, marks[k]) == Some(Cell(row, AuthorId));
      }
    }
  }

  method PushFriends(binds: seq<Bind>, friends: seq<User>) returns (binds': seq<Bind>, ghost pushed: seq<Bind>)
    ensures binds' == binds + pushed
    ensures |pushed| == |friends| && forall k :: 0 <= k < |friends| ==> pushed[k] == Text(friends[k])
  {
    binds', pushed := binds, [];
    for i := 0 to |friends|
      invariant binds' == binds + pushed
      invariant |pushed| == i && forall k :: 0 <= k < i ==> pushed[k] == Text(friends[k])
    {
      binds' := binds' + [Text(friends[i])];
      pushed := pushed + [Text(friends[i])];
    }
  }

  lemma AuthorMark(binds: seq<Bind>, user: User)
    ensures Means(Equals(AuthorId, |binds| + 1), binds + [Text(user)], ByAuthor(user))
  {
  }

  lemma AudienceMark(binds: seq<Bind>, viewer: User)
    ensures Means(InAudience(|binds| + 1), binds + [Text(viewer)], Shown(viewer))
  {
    forall row: Row
      ensures Eval(InAudience(|binds| + 1), row, binds + [Text(viewer)]) == (viewer in row.audience)
    {
      if viewer in row.audience {
        assert Bound(binds + [Text(viewer)], |binds| + 1) == Some(Text(viewer));
      }
    }
  }

  ghost function PartialTo(viewer: User): Row -> bool {
    (row: Row) => row.visibility == Partial && viewer in row.audience
  }

  lemma PartialPart(binds: seq<Bind>, mark: nat, viewer: User)
    requires Means(InAudience(mark), binds, Shown(viewer))
    ensures Means(All([VisibilityIn({Partial}), InAudience(mark)]), binds, PartialTo(viewer))
  {
    var parts := [VisibilityIn({Partial}), InAudience(mark)];
    forall row: Row
      ensures Eval(All(parts), row, binds) == PartialTo(viewer)(row)
    {
      assert Eval(parts[0], row, binds) == (row.visibility == Partial);
      assert Eval(parts[1], row, binds) == Shown(viewer)(row);
    }
  }

  ghost function OpenTo(viewer: User, friends: seq<User>): Row -> bool {
    (row: Row) => row.author in friends && row.visibility in {Public, Exclude} && viewer !in row.audience
  }

  lemma OpenPart(binds: seq<Bind>, marks: seq<nat>, mark: nat, viewer: User, friends: seq<User>)
    requires Means(OneOf(AuthorId, marks), binds, ByFriend(friends)) && Means(InAudience(mark), binds, Shown(viewer))
    ensures Means(All([OneOf(AuthorId, marks), VisibilityIn({Public, Exclude}), Not(InAudience(mark))]), binds,
                  OpenTo(viewer, friends))
  {
    var parts := [OneOf(AuthorId, marks), VisibilityIn({Public, Exclude}), Not(InAudience(mark))];
    forall row: Row
      ensures Eval(All(parts), row, binds) == OpenTo(viewer, friends)(row)
    {
      assert Eval(parts[0], row, binds) == ByFriend(friends)(row);
      assert Eval(parts[1], row, binds) == (row.visibility in {Public, Exclude});
      assert Eval(InAudience(mark), row, binds) == Shown(viewer)(row);
      assert Eval(parts[2], row, binds) == !Shown(viewer)(row);
    }
  }

  ghost function FriendsOnly(friends: seq<User>): Row -> bool {
    (row: Row) => row.visibility == Friends && row.author in friends
  }

  lemma FriendsPart(binds: seq<Bind>, marks: seq<nat>, friends: seq<User>)
    requires Means(OneOf(AuthorId, marks), binds, ByFriend(friends))
    ensures Means(All([VisibilityIn({Friends}), OneOf(AuthorId, marks)]), binds, FriendsOnly(friends))
  {
    var parts := [VisibilityIn({Friends}), OneOf(AuthorId, marks)];
    forall row: Row
      ensures Eval(All(parts), row, binds) == FriendsOnly(friends)(row)
    {
      assert Eval(parts[0], row, binds) == (row.visibility == Friends);
      assert Eval(parts[1], row, binds) == ByFriend(friends)(row);
    }
  }

  ghost function VisibleTo(viewer: User, friends: seq<User>): Row -> bool {
    (row: Row) => Visible(row, viewer, friends)
  }

  // ---- the generators ----

  /** The visibility clause, in both its shapes. */
  method VisibleClause(viewer: User, friends: seq<User>, binds: seq<Bind>) returns (c: Clause, binds': seq<Bind>)
    ensures binds <= binds'
    ensures Means(c, binds', VisibleTo(viewer, friends))
  {
    hide Eval, InRange, Means;
    var parts := [Equals(AuthorId, |binds| + 1)];
    AuthorMark(binds, viewer);
    binds' := binds + [Text(viewer)];
    ghost var b1 := binds';
    if friends == [] {
      var shown := |binds'| + 1;
      AudienceMark(binds', viewer);
      parts := parts + [All([VisibilityIn({Partial}), InAudience(shown)])];
      binds' := binds' + [Text(viewer)];
      PartialPart(binds', shown, viewer);
      MeansExtended(parts[0], b1, [Text(viewer)], ByAuthor(viewer));
      AnyOfTwo(parts, binds', viewer);
    } else {
      var marks := Marks(|binds'| + 1, |friends|);
      var viewerAt := |binds'| + |friends| + 1;
      parts := parts + [All([OneOf(AuthorId, marks), VisibilityIn({Public, Exclude}), Not(InAudience(viewerAt))])];
      ghost var pushed;
      binds', pushed := PushFriends(binds', friends);
      ghost var b2 := binds';
      FriendMarks(b1, friends, pushed);
      AudienceMark(b2, viewer);
      binds' := binds' + [Text(viewer)];
      ghost var b3 := binds';
      MeansExtended(OneOf(AuthorId, marks), b2, [Text(viewer)], ByFriend(friends));
      OpenPart(b3, marks, viewerAt, viewer, friends);
      var shown := |binds'| + 1;
      parts := parts + [All([VisibilityIn({Partial}), InAudience(shown)])];
      AudienceMark(b3, viewer);
      binds' := binds' + [Text(viewer)];
      ghost var b4 := binds';
      PartialPart(b4, shown, viewer);
      var more := Marks(|binds'| + 1, |friends|);
      parts := parts + [All([VisibilityIn({Friends}), OneOf(AuthorId, more)])];
      ghost var pushed';
      binds', pushed' := PushFriends(binds', friends);
      FriendMarks(b4, friends, pushed');
      FriendsPart(binds', more, friends);
      MeansExtended(parts[0], b1, pushed + [Text(viewer)] + [Text(viewer)] + pushed', ByAuthor(viewer));
      assert b1 + (pushed + [Text(viewer)] + [Text(viewer)] + pushed') == binds';
      MeansExtended(parts[1], b3, [Text(viewer)] + pushed', OpenTo(viewer, friends));
      assert b3 + ([Text(viewer)] + pushed') == binds';
      MeansExtended(parts[2], b4, pushed', PartialTo(viewer));
      AnyOfFour(parts, binds', viewer, friends);
    }
    c := Any(parts);
  }

  lemma AnyOfTwo(parts: seq<Clause>, binds: seq<Bind>, viewer: User)
    requires |parts| == 2
    requires Means(parts[0], binds, ByAuthor(viewer)) && Means(parts[1], binds, PartialTo(viewer))
    ensures Means(Any(parts), binds, VisibleTo(viewer, []))
  {
    forall row: Row
      ensures Eval(Any(parts), row, binds) == Visible(row, viewer, [])
    {
      assert Eval(parts[0], row, binds) == ByAuthor(viewer)(row);
      assert Eval(parts[1], row, binds) == PartialTo(viewer)(row);
    }
  }

  lemma AnyOfFour(parts: seq<Clause>, binds: seq<Bind>, viewer: User, friends: seq<User>)
    requires |parts| == 4
    requires Means(parts[0], binds, ByAuthor(viewer)) && Means(parts[1], binds, OpenTo(viewer, friends))
    requires Means(parts[2], binds, PartialTo(viewer)) && Means(parts[3], binds, FriendsOnly(friends))
    ensures Means(Any(parts), binds, VisibleTo(viewer, friends))
  {
    forall row: Row
      ensures Eval(Any(parts), row, binds) == Visible(row, viewer, friends)
    {
      assert Eval(parts[0], row, binds) == ByAuthor(viewer)(row);
      assert Eval(parts[1], row, binds) == OpenTo(viewer, friends)(row);
      assert Eval(parts[2], row, binds) == PartialTo(viewer)(row);
      assert Eval(parts[3], row, binds) == FriendsOnly(friends)(row);
    }
  }

  ghost function Older(before: Option<int>, beforeId: Option<string>): Row -> bool {
    (row: Row) => BeforeCursor(row, before, beforeId)
  }

  /** The cursor clause; an id without a time is ignored. */
  method CursorClause(before: Option<int>, beforeId: Option<string>, binds: seq<Bind>)
    returns (c: Clause, binds': seq<Bind>)
    ensures binds <= binds'
    ensures Means(c, binds', Older(before, beforeId))
  {
    match before {
      case None =>
        c, binds' := All([]), binds;
      case Some(at) =>
        var base := |binds| + 1;
        match beforeId {
          case Some(id) =>
            binds' := binds + [Int(at)] + [Int(at)] + [Text(id)];
            var tie := [Equals(CreatedAt, base + 1), Less(PostId, base + 2)];
            var parts := [Less(CreatedAt, base), All(tie)];
            c := Any(parts);
            forall row: Row
              ensures Eval(c, row, binds') == BeforeCursor(row, before, beforeId)
            {
              assert Eval(tie[0], row, binds') == (row.created == at);
              assert Eval(tie[1], row, binds') == TextLess(row.id, id);
              assert Eval(parts[0], row, binds') == (row.created < at);
              assert Eval(parts[1], row, binds') == (row.created == at && TextLess(row.id, id));
            }
          case None =>
            binds' := binds + [Int(at)];
            c := Less(CreatedAt, base);
        }
    }
  }

  /** A timeline query: its condition, the placeholder of its limit and the bind vector. */
  datatype Query = Query(where: Clause, limitMark: nat, binds: seq<Bind>)

  ghost function WantedBy(viewer: User, friends: seq<User>, author: Option<User>,
                          before: Option<int>, beforeId: Option<string>): Row -> bool
  {
    (row: Row) => Wanted(row, viewer, friends, author, before, beforeId)
  }

  /** The whole generated query means the plain predicate, and its limit is the one asked for. */
  method TimelineQuery(viewer: User, friends: seq<User>, author: Option<User>,
                       before: Option<int>, beforeId: Option<string>, limit: int) returns (q: Query)
    ensures Means(q.where, q.binds, WantedBy(viewer, friends, author, before, beforeId))
    ensures Bound(q.binds, q.limitMark) == Some(Int(limit))
  {
    hide Eval, InRange, Means;
    var visible, b1 := VisibleClause(viewer, friends, []);
    var clauses := [visible];
    var b2 := b1;
    if author.Some? {
      clauses := clauses + [Equals(AuthorId, |b2| + 1)];
      AuthorMark(b2, author.value);
      b2 := b2 + [Text(author.value)];
    }
    var cursor, b3 := CursorClause(before, beforeId, b2);
    ghost var tail := b3[|b2|..];
    assert b3 == b2 + tail;
    clauses := clauses + [cursor];
    if author.Some? {
      MeansExtended(visible, b1, [Text(author.value)] + tail, VisibleTo(viewer, friends));
      assert b1 + ([Text(author.value)] + tail) == b3;
      MeansExtended(clauses[1], b2, tail, ByAuthor(author.value));
    } else {
      MeansExtended(visible, b1, tail, VisibleTo(viewer, friends));
    }
    AllOf(clauses, b3, viewer, friends, author, before, beforeId);
    MeansExtended(All(clauses), b3, [Int(limit)], WantedBy(viewer, friends, author, before, beforeId));
    q := Query(All(clauses), |b3| + 1, b3 + [Int(limit)]);
  }

  lemma AllOf(clauses: seq<Clause>, binds: seq<Bind>, viewer: User, friends: seq<User>, author: Option<User>,
              before: Option<int>, beforeId: Option<string>)
    requires |clauses| == if author.Some? then 3 else 2
    requires Means(clauses[0], binds, VisibleTo(viewer, friends))
    requires author.Some? ==> Means(clauses[1], binds, ByAuthor(author.value))
    requires Means(clauses[|clauses| - 1], binds, Older(before, beforeId))
    ensures Means(All(clauses), binds, WantedBy(viewer, friends, author, before, beforeId))
  {
    forall row: Row
      ensures Eval(All(clauses), row, binds) == Wanted(row, viewer, friends, author, before, beforeId)
    {
      assert Eval(clauses[0], row, binds) == VisibleTo(viewer, friends)(row);
      assert author.Some? ==> Eval(clauses[1], row, binds) == ByAuthor(author.value)(row);
      assert Eval(clauses[|clauses| - 1], row, binds) == Older(before, beforeId)(row);
    }
  }

  // ---- single posts ----

  /** The access check on one post; `given` is the space key offered, `key` the author's. */
  function Admits(row: Row, me: User, friends: seq<User>, given: Option<string>, key: Option<string>): bool {
    if row.author == me then true
    else if row.visibility == Public then
      row.author in friends || (given.Some? && |given.value| >= KEY_MIN && key == given)
    else if row.author !in friends then false
    else if row.visibility == Friends then true
    else if row.visibility == Partial && me in row.audience then true
    else row.visibility == Exclude && me !in row.audience
  }

  /** Without a key a single post is open to its author and, depending on its audience, to friends. */
  lemma AdmitsMeaning(row: Row, me: User, friends: seq<User>, key: Option<string>)
    ensures Admits(row, me, friends, None, key) <==>
            || row.author == me
            || (row.author in friends &&
                  match row.visibility
                  case Public => true
                  case Friends => true
                  case Partial => me in row.audience
                  case Exclude => me !in row.audience)
  {
  }

  /** Audiences as publishing stores them. */
  predicate AsPublished(row: Row) {
    row.visibility == Public || row.visibility == Friends ==> row.audience == {}
  }

  /**
   The access check against the timeline rule: without a space key it is narrower by exactly
   the partial posts that list the viewer but whose author is no friend.
   */
  lemma AdmitsExactly(row: Row, me: User, friends: seq<User>, key: Option<string>)
    requires AsPublished(row)
    ensures Admits(row, me, friends, None, key) ==> Visible(row, me, friends)
    ensures Visible(row, me, friends) && !Admits(row, me, friends, None, key) <==>
            row.visibility == Partial && me in row.audience && row.author !in friends && row.author != me
  {
  }

  /** A space key opens public posts of strangers and nothing else. */
  lemma SpaceKeyOpens(row: Row, me: User, friends: seq<User>, given: string, key: Option<string>)
    ensures Admits(row, me, friends, Some(given), key) && !Admits(row, me, friends, None, key) <==>
            && row.visibility == Public && row.author != me && row.author !in friends
            && |given| >= 16 && key == Some(given)
  {
  }

  datatype PublishError = NoAudience | TooMany | NotFriend

  /** The names that count: not empty, not the author's own, each once, first mention first. */
  function Names(raw: seq<string>, myName: string): seq<string> {
    if raw == [] then []
    else
      var rest, last := Names(raw[..|raw| - 1], myName), raw[|raw| - 1];
      if last == "" || last == myName || last in rest then rest else rest + [last]
  }

  lemma {:induction false} NamesMeaning(raw: seq<string>, myName: string)
    ensures forall name :: name in Names(raw, myName) <==> name in raw && name != "" && name != myName
    ensures forall i, j :: 0 <= i < j < |Names(raw, myName)| ==> Names(raw, myName)[i] != Names(raw, myName)[j]
  {
    if raw != [] {
      NamesMeaning(raw[..|raw| - 1], myName);
      assert raw == raw[..|raw| - 1] + [raw[|raw| - 1]];
    }
  }

  /** Names come in the order of their first mention. */
  lemma {:induction false} NamesInOrder(raw: seq<string>, myName: string, i: nat, j: nat)
    requires i < j < |Names(raw, myName)|
    ensures exists p :: 0 <= p < |raw| && raw[p] == Names(raw, myName)[i] && Names(raw, myName)[j] !in raw[..p]
  {
    var front, last := raw[..|raw| - 1], raw[|raw| - 1];
    var rest, names := Names(front, myName), Names(raw, myName);
    assert names[i] == rest[i];
    if j < |rest| {
      NamesInOrder(front, myName, i, j);
      var p :| 0 <= p < |front| && front[p] == rest[i] && rest[j] !in front[..p];
      assert raw[p] == names[i] && raw[..p] == front[..p];
    } else {
      NamesMeaning(front, myName);
      assert rest[i] in rest && last !in front;
      var p :| 0 <= p < |front| && front[p] == rest[i];
      assert raw[p] == names[i] && forall x :: x in raw[..p] ==> x in front;
    }
  }

  /**
   The audience of a new post from the names sent along (already trimmed and lower-cased).
   `users` maps names to ids.
   */
  method BuildAudience(visibility: Visibility, raw: seq<string>, users: map<string, User>,
                       myName: string, friends: seq<User>) returns (r: Result<seq<User>, PublishError>)
    ensures visibility in {Public, Friends} ==> r == Ok([])
    ensures visibility in {Partial, Exclude} ==>
              var names := Names(raw, myName);
              && (r == Err(NoAudience) <==> names == [])
              && (r == Err(TooMany) <==> |names| > 200)
              && (r.Ok? <==> && 1 <= |names| <= 200
                             && forall name :: name in names ==> name in users && users[name] in friends)
              && (r.Ok? ==> && |r.value| == |names|
                            && forall k :: 0 <= k < |names| ==> names[k] in users && r.value[k] == users[names[k]])
  {
    var audience: seq<User> := [];
    if visibility == Partial || visibility == Exclude {
      var names: seq<string> := [];
      for i := 0 to |raw|
        invariant names == Names(raw[..i], myName)
      {
        assert raw[..i + 1][..i] == raw[..i];
        var name := raw[i];
        if name == "" || name == myName || name in names {
          continue;
        }
        names := names + [name];
      }
      assert raw[..|raw|] == raw;
      if names == [] {
        return Err(NoAudience);
      }
      if |names| > AUDIENCE_MAX {
        return Err(TooMany);
      }
      for i := 0 to |names|
        invariant |audience| == i
        invariant forall k :: 0 <= k < i ==>
                                && names[k] in users && users[names[k]] in friends
                                && audience[k] == users[names[k]]
      {
        var name := names[i];
        assert name in names;
        if name !in users || users[name] !in friends {
          return Err(NotFriend);
        }
        audience := audience + [users[name]];
      }
    }
    return Ok(audience);
  }
}
