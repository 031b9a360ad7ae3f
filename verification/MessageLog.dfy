/**
 The message table: sequence numbers per session, retention deletes, forward
 synchronisation and backward history paging.
 */
module MessageLog {
  import opened Wrappers
  import opened TextOrder
  import opened Select

  datatype Message = Message(id: string, session: string, num: int, created: int)

  type Log = seq<Message>

  /** Ids are unique and, within a session, sequence numbers grow in insertion order. */
  ghost predicate WellNumbered(log: Log) {
    && (forall i, j :: 0 <= i < j < |log| ==> log[i].id != log[j].id)
    && (forall i, j :: 0 <= i < j < |log| && log[i].session == log[j].session ==> log[i].num < log[j].num)
    && (forall i :: 0 <= i < |log| ==> log[i].num >= 1)
  }

  // ---- writes ----

  /** Largest sequence number of a session, 0 when it has no message. */
  function MaxSeq(log: Log, session: string): (top: int)
    ensures top >= 0
    ensures forall m :: m in log && m.session == session ==> m.num <= top
    ensures top > 0 ==> exists m :: m in log && m.session == session && m.num == top
  {
    if log == [] then 0
    else
      var rest, last := MaxSeq(log[..|log| - 1], session), log[|log| - 1];
      assert log == log[..|log| - 1] + [last];
      if last.session == session && last.num > rest then last.num else rest
  }

  function Save(log: Log, id: string, session: string, now: int): Log {
    log + [Message(id, session, MaxSeq(log, session) + 1, now)]
  }

  function DeleteBefore(log: Log, cutoff: int): (rest: Log)
    ensures forall m :: m in rest <==> m in log && m.created >= cutoff
  {
    if log == [] then []
    else
      var rest, last := DeleteBefore(log[..|log| - 1], cutoff), log[|log| - 1];
      assert log == log[..|log| - 1] + [last];
      if last.created < cutoff then rest else rest + [last]
  }

  function NotBefore(cutoff: int): Message -> bool {
    (m: Message) => m.created >= cutoff
  }

  /** Retention keeps the other messages in order. */
  lemma {:induction false} DeleteInOrder(log: Log, cutoff: int)
    ensures DeleteBefore(log, cutoff) == Filter(log, NotBefore(cutoff))
  {
    if log != [] {
      var front, last := log[..|log| - 1], log[|log| - 1];
      DeleteInOrder(front, cutoff);
      assert log == front + [last];
      FilterSplit(front, [last], NotBefore(cutoff));
      FilterOne(last, NotBefore(cutoff));
      hide Filter;
    }
  }

  lemma AppendNumbered(log: Log, last: Message)
    requires WellNumbered(log) && last.num >= 1
    requires forall m :: m in log ==> m.id != last.id && (m.session == last.session ==> m.num < last.num)
    ensures WellNumbered(log + [last])
  {
    forall i | 0 <= i < |log|
      ensures log[i].id != last.id && (log[i].session == last.session ==> log[i].num < last.num)
    {
      assert log[i] in log;
    }
  }

  lemma SaveNumbered(log: Log, id: string, session: string, now: int)
    requires WellNumbered(log) && forall m :: m in log ==> m.id != id
    ensures WellNumbered(Save(log, id, session, now))
  {
    AppendNumbered(log, Message(id, session, MaxSeq(log, session) + 1, now));
  }

  lemma {:induction false} DeleteNumbered(log: Log, cutoff: int)
    requires WellNumbered(log)
    ensures WellNumbered(DeleteBefore(log, cutoff))
  {
    if log != [] {
      var front, last := log[..|log| - 1], log[|log| - 1];
      DeleteNumbered(front, cutoff);
      forall m | m in front
        ensures m.id != last.id && (m.session == last.session ==> m.num < last.num)
      {
        var j :| 0 <= j < |front| && front[j] == m;
        assert log[j] == m;
      }
      hide WellNumbered;
      if last.created >= cutoff {
        LastNumbered(log);
        AppendNumbered(DeleteBefore(front, cutoff), last);
      }
    }
  }

  lemma LastNumbered(log: Log)
    requires WellNumbered(log) && log != []
    ensures log[|log| - 1].num >= 1
  {
  }

  datatype Op = SaveOp(id: string, session: string, now: int) | DeleteOp(cutoff: int)

  /** A run of inserts and retention deletes; an insert under a used id fails. */
  function Run(log: Log, ops: seq<Op>): Log
    decreases |ops|
  {
    if ops == [] then log
    else
      Run(match ops[0]
          case SaveOp(id, session, now) =>
            if exists m :: m in log && m.id == id then log else Save(log, id, session, now)
          case DeleteOp(cutoff) => DeleteBefore(log, cutoff),
          ops[1..])
  }

  /** Writes take effect one after the other. */
  lemma {:induction false} RunOneMore(log: Log, ops: seq<Op>, op: Op)
    ensures Run(log, []) == log
    ensures
      var mid := Run(log, ops);
      Run(log, ops + [op]) ==
      match op
      case SaveOp(id, session, now) => if forall m :: m in mid ==> m.id != id then Save(mid, id, session, now) else mid
      case DeleteOp(cutoff) => DeleteBefore(mid, cutoff)
    decreases |ops|
  {
    hide Save, DeleteBefore;
    if ops == [] {
      assert [] + [op] == [op] && [op][1..] == [];
    } else {
      assert (ops + [op])[1..] == ops[1..] + [op];
      RunOneMore(match ops[0]
                 case SaveOp(id, session, now) =>
                   if exists m :: m in log && m.id == id then log else Save(log, id, session, now)
                 case DeleteOp(cutoff) => DeleteBefore(log, cutoff), ops[1..], op);
    }
  }

  lemma {:induction false} EveryLogNumbered(log: Log, ops: seq<Op>)
    requires WellNumbered(log)
    ensures WellNumbered(Run(log, ops))
    decreases |ops|
  {
    if ops != [] {
      match ops[0] {
        case SaveOp(id, session, now) =>
          if exists m :: m in log && m.id == id {
            EveryLogNumbered(log, ops[1..]);
          } else {
            SaveNumbered(log, id, session, now);
            EveryLogNumbered(Save(log, id, session, now), ops[1..]);
          }
        case DeleteOp(cutoff) =>
          DeleteNumbered(log, cutoff);
          EveryLogNumbered(DeleteBefore(log, cutoff), ops[1..]);
      }
    }
  }

  // ---- queries ----

  predicate SeqLess(a: Message, b: Message) {
    || a.num < b.num
    || (a.num == b.num && (a.created < b.created || (a.created == b.created && TextLess(a.id, b.id))))
  }

  predicate SeqMore(a: Message, b: Message) {
    SeqLess(b, a)
  }

  lemma SameMessage(log: Log, a: Message, b: Message)
    requires WellNumbered(log) && a in log && b in log
    requires a.id == b.id || (a.session == b.session && a.num == b.num)
    ensures a == b
  {
    var i :| 0 <= i < |log| && log[i] == a;
    var j :| 0 <= j < |log| && log[j] == b;
  }

  lemma SeqOrders(log: Log)
    requires WellNumbered(log)
    ensures Orders(log, SeqLess) && Orders(log, SeqMore) && Unrepeated(log)
  {
    forall x | x in log
      ensures !SeqLess(x, x)
    {
      TextIrreflexive(x.id);
    }
    forall x, y | x in log && y in log && x != y
      ensures SeqLess(x, y) || SeqLess(y, x)
    {
      TextTotal(x.id, y.id);
      if x.id == y.id {
        SameMessage(log, x, y);
      }
    }
    forall x, y, z | x in log && y in log && z in log && SeqLess(x, y) && SeqLess(y, z)
      ensures SeqLess(x, z)
    {
      if TextLess(x.id, y.id) && TextLess(y.id, z.id) {
        TextTransitive(x.id, y.id, z.id);
      }
    }
  }

  function Above(session: string, cursor: int): Message -> bool {
    (m: Message) => m.session == session && m.num > cursor
  }

  /** The messages of a session above a cursor, lowest sequence number first. */
  function Since(log: Log, session: string, cursor: int): seq<Message> {
    Whole(log, Above(session, cursor), SeqLess)
  }

  /** Exactly the messages of the session numbered above the cursor, in the order of their numbers. */
  lemma SinceMeaning(log: Log, session: string, cursor: int)
    requires WellNumbered(log)
    ensures forall m :: m in Since(log, session, cursor) <==> m in log && m.session == session && m.num > cursor
    ensures
      var all := Since(log, session, cursor);
      forall i, j :: 0 <= i < j < |all| ==> all[i].num < all[j].num
  {
    SeqOrders(log);
    WholeSorted(log, Above(session, cursor), SeqLess);
    NumbersGrow(log, session, Since(log, session, cursor));
  }

  lemma NumbersGrow(log: Log, session: string, all: seq<Message>)
    requires WellNumbered(log) && Sorted(all, SeqLess)
    requires forall m :: m in all ==> m in log && m.session == session
    ensures forall i, j :: 0 <= i < j < |all| ==> all[i].num < all[j].num
  {
    forall i, j | 0 <= i < j < |all|
      ensures all[i].num < all[j].num
    {
      assert all[i] in all && all[j] in all;
      NumLess(log, all[i], all[j]);
    }
  }

  /** In a numbered log the order by sequence number is the order of insertion. */
  lemma SinceIsInsertionOrder(log: Log, session: string, cursor: int)
    requires WellNumbered(log)
    ensures Since(log, session, cursor) == Filter(log, Above(session, cursor))
  {
    SeqOrders(log);
    WholeSorted(log, Above(session, cursor), SeqLess);
    FilterInOrder(log, session, cursor);
    SortedUnique(Since(log, session, cursor), Filter(log, Above(session, cursor)), SeqLess);
  }

  lemma {:induction false} FilterInOrder(log: Log, session: string, cursor: int)
    requires WellNumbered(log)
    ensures Sorted(Filter(log, Above(session, cursor)), SeqLess)
  {
    if log != [] {
      var rest := log[1..];
      assert forall i :: 0 <= i < |rest| ==> rest[i] == log[i + 1];
      FilterInOrder(rest, session, cursor);
      var kept := Filter(rest, Above(session, cursor));
      if Above(session, cursor)(log[0]) {
        forall j | 0 <= j < |kept|
          ensures SeqLess(log[0], kept[j])
        {
          assert kept[j] in kept;
          var i :| 0 <= i < |rest| && rest[i] == kept[j];
        }
      }
    }
  }

  /** One session's answer in a synchronisation. */
  datatype Page = Page(messages: seq<Message>, lastSeq: int, hasMore: bool)

  function ClampSync(limit: Option<int>): (n: int)
    ensures limit.None? ==> n == 200
    ensures limit.Some? ==> (n < limit.value ==> n == 500) && (n > limit.value ==> n == 1)
    ensures 1 <= n <= 500
  {
    var asked := if limit.Some? then limit.value else 200;
    if asked < 1 then 1 else if asked > 500 then 500 else asked
  }

  method MessagesSince(log: Log, session: string, cursor: int, limit: int) returns (rows: seq<Message>)
    ensures rows == Take(Since(log, session, cursor), limit)
  {
    rows := Answer(log, Above(session, cursor), SeqLess, limit);
  }

  /** What `sync.delta` owes for one session: the next `n` messages and whether more follow. */
  ghost predicate IsDelta(log: Log, session: string, cursor: int, n: int, page: Page) {
    var all := Since(log, session, cursor);
    && page.messages == Take(all, n)
    && (page.hasMore <==> |all| > n)
    && page.lastSeq == if page.messages == [] then cursor else page.messages[|page.messages| - 1].num
  }

  /** The next messages, as many as asked for or all there are; whether that leaves any; and where to continue. */
  lemma DeltaMeaning(log: Log, session: string, cursor: int, n: int, page: Page)
    requires n >= 1 && IsDelta(log, session, cursor, n, page)
    ensures
      var all := Since(log, session, cursor);
      && page.messages <= all
      && |page.messages| == (if n < |all| then n else |all|)
      && (page.hasMore <==> |page.messages| < |all|)
      && (all == [] ==> page.lastSeq == cursor)
      && (all != [] ==> page.messages != [] && page.lastSeq == page.messages[|page.messages| - 1].num)
  {
    hide Since;
  }

  /** One more row than asked for tells whether more follow. */
  method DeltaPage(log: Log, session: string, cursor: int, n: int) returns (page: Page)
    requires n >= 1
    ensures IsDelta(log, session, cursor, n, page)
  {
    hide Since;
    var rows := MessagesSince(log, session, cursor, n + 1);
    var hasMore := |rows| > n;
    var messages := if |rows| > n then rows[..n] else rows;
    var last := if messages == [] then cursor else messages[|messages| - 1].num;
    return Page(messages, last, hasMore);
  }

  /** `sync.delta`: one page for every requested session. */
  method SyncDelta(log: Log, targets: seq<(string, int)>, limit: Option<int>) returns (pages: seq<Page>)
    ensures |pages| == |targets|
    ensures forall i :: 0 <= i < |targets| ==> IsDelta(log, targets[i].0, targets[i].1, ClampSync(limit), pages[i])
  {
    hide IsDelta;
    var n := ClampSync(limit);
    pages := [];
    for i := 0 to |targets|
      invariant |pages| == i
      invariant forall k :: 0 <= k < i ==> IsDelta(log, targets[k].0, targets[k].1, n, pages[k])
    {
      var page := DeltaPage(log, targets[i].0, targets[i].1, n);
      pages := pages + [page];
    }
  }

  /** Continuing from the last sequence number of a page continues right behind the page. */
  lemma SinceContinues(log: Log, session: string, cursor: int, k: nat)
    requires WellNumbered(log) && 0 < k <= |Since(log, session, cursor)|
    ensures Since(log, session, Since(log, session, cursor)[k - 1].num) == Since(log, session, cursor)[k..]
  {
    SeqOrders(log);
    var all := Since(log, session, cursor);
    var last := all[k - 1];
    assert last in all;
    forall x | x in log
      ensures Above(session, last.num)(x) == (Above(session, cursor)(x) && SeqLess(last, x))
    {
      if x.session == session && x.num == last.num {
        SameMessage(log, x, last);
        TextIrreflexive(x.id);
      }
    }
    ContinueAfter(log, Above(session, cursor), Above(session, last.num), SeqLess, k);
  }

  /** A page behind the first `k` rows of an answer is the next part of it. */
  lemma NextPart(log: Log, session: string, start: int, k: nat, cursor: int, n: int, page: Page)
    requires WellNumbered(log) && k <= |Since(log, session, start)| && n >= 1
    requires cursor == if k == 0 then start else Since(log, session, start)[k - 1].num
    requires IsDelta(log, session, cursor, n, page)
    ensures
      var all := Since(log, session, start);
      && k + |page.messages| <= |all| && page.messages == all[k..k + |page.messages|]
      && (page.hasMore <==> k + |page.messages| < |all|)
      && (page.hasMore ==> page.messages != [])
      && (page.messages != [] ==> page.lastSeq == page.messages[|page.messages| - 1].num)
  {
    hide Since, WellNumbered;
    if k > 0 {
      SinceContinues(log, session, start, k);
    } else {
      assert Since(log, session, start)[0..] == Since(log, session, start);
    }
  }

  /** Repeating `sync.delta` until nothing more is announced yields all messages above the cursor, in order. */
  method CatchUp(log: Log, session: string, start: int, limit: Option<int>) returns (all: seq<Message>)
    requires WellNumbered(log)
    ensures all == Since(log, session, start)
  {
    hide Since, WellNumbered, IsDelta;
    ghost var whole := Since(log, session, start);
    var cursor, more := start, true;
    all := [];
    while more
      invariant |all| <= |whole| && all == whole[..|all|]
      invariant more ==> cursor == if all == [] then start else all[|all| - 1].num
      invariant !more ==> |all| == |whole|
      decreases |whole| - |all|, more
    {
      var pages := SyncDelta(log, [(session, cursor)], limit);
      var page := pages[0];
      assert [(session, cursor)][0] == (session, cursor);
      NextPart(log, session, start, |all|, cursor, ClampSync(limit), page);
      all := all + page.messages;
      cursor, more := page.lastSeq, page.hasMore;
    }
  }

  // ---- retention and old cursors ----

  /** A client holding `cursor` will be given the next message exactly if the cursor is not above the live maximum. */
  lemma NextMessageSeen(log: Log, id: string, session: string, now: int, cursor: int)
    requires WellNumbered(log) && forall m :: m in log ==> m.id != id
    ensures
      var log' := Save(log, id, session, now);
      log'[|log|] in Since(log', session, cursor) <==> cursor <= MaxSeq(log, session)
  {
    assert Save(log, id, session, now)[|log|] in Save(log, id, session, now);
  }

  lemma {:induction false} NothingKept(log: Log, keep: Message -> bool)
    requires forall m :: m in log ==> !keep(m)
    ensures Filter(log, keep) == []
  {
    if log != [] {
      NothingKept(log[1..], keep);
    }
  }

  /**
   Retention restarts the numbering: once every message of a session has been deleted, the
   next one gets number 1, and a client that had ever seen a message asks above it.
   */
  lemma RetentionHidesNext(log: Log, session: string, cutoff: int, id: string, now: int, cursor: int)
    requires WellNumbered(log) && forall m :: m in log ==> m.id != id
    requires forall m :: m in log && m.session == session ==> m.created < cutoff
    requires cursor >= 1
    ensures
      var log' := Save(DeleteBefore(log, cutoff), id, session, now);
      WellNumbered(log') && log'[|log'| - 1].num == 1 && Since(log', session, cursor) == []
  {
    var kept := DeleteBefore(log, cutoff);
    DeleteNumbered(log, cutoff);
    SaveNumbered(kept, id, session, now);
    var log' := Save(kept, id, session, now);
    NothingKept(log', Above(session, cursor));
  }

  // ---- history ----

  /** A time stamp as sent by the client; text that does not parse is ignored. */
  datatype Stamp = Garbled | At(ms: int)

  datatype Cursor = Cursor(
    before: Option<Stamp>, after: Option<Stamp>, beforeId: Option<string>, afterId: Option<string>,
    beforeSeq: Option<int>, afterSeq: Option<int>)

  /** Sequence number of the message with this id, in whatever session it is. */
  function SeqOf(log: Log, id: Option<string>): (at: Option<int>)
    ensures at.Some? ==> exists m :: m in log && id == Some(m.id) && m.num == at.value
    ensures at.None? && id.Some? ==> forall m :: m in log ==> m.id != id.value
  {
    if id.None? || log == [] then None
    else if log[0].id == id.value then Some(log[0].num)
    else SeqOf(log[1..], id)
  }

  predicate UpperOk(m: Message, num: Option<int>, inclusive: bool, stamp: Option<Stamp>) {
    match num
    case Some(s) => if inclusive then m.num <= s else m.num < s
    case None => match stamp case Some(At(ms)) => m.created < ms case _ => true
  }

  predicate LowerOk(m: Message, num: Option<int>, inclusive: bool, stamp: Option<Stamp>) {
    match num
    case Some(s) => if inclusive then m.num >= s else m.num > s
    case None => match stamp case Some(At(ms)) => m.created > ms case _ => true
  }

  function Or<T>(a: Option<T>, b: Option<T>): Option<T> {
    if a.Some? then a else b
  }

  function InWindow(log: Log, session: string, c: Cursor): Message -> bool {
    var older, newer := SeqOf(log, c.beforeId), SeqOf(log, c.afterId);
    (m: Message) =>
      && m.session == session
      && UpperOk(m, Or(c.beforeSeq, older), c.beforeSeq.None? && older.Some?, c.before)
      && LowerOk(m, Or(c.afterSeq, newer), c.afterSeq.None? && newer.Some?, c.after)
  }

  predicate Ascending(log: Log, c: Cursor) {
    c.afterSeq.Some? || SeqOf(log, c.afterId).Some? || (SeqOf(log, c.beforeId).None? && c.after.Some?)
  }

  function Reversed<T>(xs: seq<T>): (r: seq<T>)
    ensures |r| == |xs| && forall i :: 0 <= i < |xs| ==> r[i] == xs[|xs| - 1 - i]
  {
    seq(|xs|, i requires 0 <= i < |xs| => xs[|xs| - 1 - i])
  }

  /**
   A sequence number bounds exclusively and comes before everything else; the message with a
   given id bounds inclusively; a time stamp that parses counts when neither is there.
   */
  lemma WindowMeaning(log: Log, session: string, c: Cursor, m: Message)
    requires WellNumbered(log)
    ensures InWindow(log, session, c)(m) <==>
            && m.session == session
            && (c.beforeSeq.Some? ==> m.num < c.beforeSeq.value)
            && (c.beforeSeq.None? ==>
                && (forall a :: a in log && c.beforeId == Some(a.id) ==> m.num <= a.num)
                && ((forall a :: a in log ==> c.beforeId != Some(a.id)) ==>
                    forall ms :: c.before == Some(At(ms)) ==> m.created < ms))
            && (c.afterSeq.Some? ==> m.num > c.afterSeq.value)
            && (c.afterSeq.None? ==>
                && (forall a :: a in log && c.afterId == Some(a.id) ==> m.num >= a.num)
                && ((forall a :: a in log ==> c.afterId != Some(a.id)) ==>
                    forall ms :: c.after == Some(At(ms)) ==> m.created > ms))
  {
    hide WellNumbered;
    SeqOfMeaning(log, c.beforeId);
    SeqOfMeaning(log, c.afterId);
  }

  lemma SeqOfMeaning(log: Log, id: Option<string>)
    requires WellNumbered(log)
    ensures SeqOf(log, id).None? <==> forall a :: a in log ==> id != Some(a.id)
    ensures forall a :: a in log && id == Some(a.id) ==> SeqOf(log, id) == Some(a.num)
  {
    forall a | a in log && id == Some(a.id)
      ensures SeqOf(log, id) == Some(a.num)
    {
      AnchorFound(log, a);
    }
  }

  /** Which end of the window is read. */
  lemma AscendingMeaning(log: Log, c: Cursor)
    requires WellNumbered(log)
    ensures Ascending(log, c) <==>
            || c.afterSeq.Some?
            || (exists a :: a in log && c.afterId == Some(a.id))
            || (c.after.Some? && forall a :: a in log ==> c.beforeId != Some(a.id))
  {
    hide WellNumbered;
    SeqOfMeaning(log, c.beforeId);
    SeqOfMeaning(log, c.afterId);
  }

  const NO_CURSOR: Cursor := Cursor(None, None, None, None, None, None)

  /** The last `n` entries of a list. */
  function Tail<T>(xs: seq<T>, n: nat): seq<T> {
    if n < |xs| then xs[|xs| - n..] else xs
  }

  lemma ReversedSorted(xs: seq<Message>)
    requires Sorted(xs, SeqLess)
    ensures Sorted(Reversed(xs), SeqMore)
    ensures forall x :: x in Reversed(xs) <==> x in xs
  {
    hide SeqLess;
    forall x
      ensures x in Reversed(xs) <==> x in xs
    {
      if x in xs {
        var i :| 0 <= i < |xs| && xs[i] == x;
        assert Reversed(xs)[|xs| - 1 - i] == x;
      }
    }
  }

  /** Descending order is ascending order backwards. */
  lemma DescendingReversed(log: Log, keep: Message -> bool)
    requires WellNumbered(log)
    ensures Whole(log, keep, SeqMore) == Reversed(Whole(log, keep, SeqLess))
  {
    SeqOrders(log);
    hide SeqLess, SeqMore, WellNumbered, Reversed;
    WholeSorted(log, keep, SeqLess);
    WholeSorted(log, keep, SeqMore);
    ReversedSorted(Whole(log, keep, SeqLess));
    SortedUnique(Whole(log, keep, SeqMore), Reversed(Whole(log, keep, SeqLess)), SeqMore);
  }

  lemma ReversedTake(xs: seq<Message>, n: nat)
    ensures Reversed(Take(Reversed(xs), n)) == Tail(xs, n)
  {
  }

  /**
   `message_list`: the rows of the window nearest to the cursor, the first or the last
   `limit` of them, always handed out oldest first.
   */
  method MessageList(log: Log, session: string, limit: int, c: Cursor) returns (list: seq<Message>)
    ensures list == if Ascending(log, c) then Take(Whole(log, InWindow(log, session, c), SeqLess), limit)
                    else Reversed(Take(Whole(log, InWindow(log, session, c), SeqMore), limit))
    ensures WellNumbered(log) ==>
              var window := Whole(log, InWindow(log, session, c), SeqLess);
              && Sorted(list, SeqLess)
              && list == if Ascending(log, c) then Take(window, limit) else Tail(window, if limit < 0 then 0 else limit)
  {
    var older, newer := SeqOf(log, c.beforeId), SeqOf(log, c.afterId);
    var ascending := c.afterSeq.Some? || newer.Some? || (older.None? && c.after.Some?);
    if ascending {
      list := Answer(log, InWindow(log, session, c), SeqLess, limit);
    } else {
      list := Reversed(Answer(log, InWindow(log, session, c), SeqMore, limit));
    }
    WindowSorted(log, InWindow(log, session, c), limit);
  }

  /** The first and the last rows of a window, read in either order. */
  lemma WindowSorted(log: Log, keep: Message -> bool, limit: int)
    ensures WellNumbered(log) ==>
              var window, n := Whole(log, keep, SeqLess), if limit < 0 then 0 else limit;
              && Sorted(Take(window, limit), SeqLess) && Sorted(Tail(window, n), SeqLess)
              && Reversed(Take(Whole(log, keep, SeqMore), limit)) == Tail(window, n)
  {
    hide SeqLess, SeqMore, Whole;
    if WellNumbered(log) {
      hide WellNumbered;
      SeqOrders(log);
      WholeSorted(log, keep, SeqLess);
      DescendingReversed(log, keep);
      ReversedTake(Whole(log, keep, SeqLess), if limit < 0 then 0 else limit);
    }
  }

  function Below(session: string, bound: Option<int>): Message -> bool {
    (m: Message) => m.session == session && (bound.Some? ==> m.num < bound.value)
  }

  /** Messages of a session under a sequence number, oldest first. */
  function Until(log: Log, session: string, bound: Option<int>): seq<Message> {
    Whole(log, Below(session, bound), SeqLess)
  }

  /** A `beforeSeq` page is the last `limit` messages below that number. */
  method PageBefore(log: Log, session: string, limit: nat, bound: Option<int>) returns (list: seq<Message>)
    requires WellNumbered(log)
    ensures list == Tail(Until(log, session, bound), limit)
  {
    var c := NO_CURSOR.(beforeSeq := bound);
    list := MessageList(log, session, limit, c);
    SameAnswer(log, InWindow(log, session, c), Below(session, bound), SeqMore);
    DescendingReversed(log, Below(session, bound));
    ReversedTake(Until(log, session, bound), limit);
  }

  /** What `Until` selects, in the order of the numbers. */
  lemma UntilMeaning(log: Log, session: string, bound: Option<int>)
    requires WellNumbered(log)
    ensures forall m :: m in Until(log, session, bound) <==>
                        m in log && m.session == session && (bound.Some? ==> m.num < bound.value)
    ensures
      var all := Until(log, session, bound);
      forall i, j :: 0 <= i < j < |all| ==> all[i].num < all[j].num
  {
    SeqOrders(log);
    WholeSorted(log, Below(session, bound), SeqLess);
    NumbersGrow(log, session, Until(log, session, bound));
  }

  /**
   An `afterSeq` page is the first `limit` messages above that number, whatever `afterId` and
   `after` say.
   */
  method PageAfter(log: Log, session: string, limit: nat, num: int, afterId: Option<string>, after: Option<Stamp>)
    returns (list: seq<Message>)
    requires WellNumbered(log)
    ensures list == Take(Since(log, session, num), limit)
  {
    var c := Cursor(None, after, None, afterId, None, Some(num));
    list := MessageList(log, session, limit, c);
    SameAnswer(log, InWindow(log, session, c), Above(session, num), SeqLess);
  }

  /** An `afterId` page starts with the anchor itself, followed by the `limit - 1` messages behind it. */
  method PageFrom(log: Log, session: string, limit: nat, anchor: Message, after: Option<Stamp>)
    returns (list: seq<Message>)
    requires WellNumbered(log) && anchor in log && anchor.session == session && limit >= 1
    ensures list == [anchor] + Take(Since(log, session, anchor.num), limit - 1)
  {
    var c := Cursor(None, after, None, Some(anchor.id), None, None);
    list := MessageList(log, session, limit, c);
    AnchorFound(log, anchor);
    WindowFrom(log, session, anchor, after);
    AnchorFirst(log, session, anchor);
    hide Since, WellNumbered, Whole, InWindow;
  }

  lemma WindowFrom(log: Log, session: string, anchor: Message, after: Option<Stamp>)
    requires WellNumbered(log) && anchor in log && anchor.session == session
    ensures
      var c := Cursor(None, after, None, Some(anchor.id), None, None);
      Whole(log, InWindow(log, session, c), SeqLess) == Since(log, session, anchor.num - 1)
  {
    AnchorFound(log, anchor);
    var c := Cursor(None, after, None, Some(anchor.id), None, None);
    SameAnswer(log, InWindow(log, session, c), Above(session, anchor.num - 1), SeqLess);
  }

  lemma AnchorFirst(log: Log, session: string, anchor: Message)
    requires WellNumbered(log) && anchor in log && anchor.session == session
    ensures Since(log, session, anchor.num - 1) == [anchor] + Since(log, session, anchor.num)
  {
    hide Since, WellNumbered;
    var from := Since(log, session, anchor.num - 1);
    SinceMeaning(log, session, anchor.num - 1);
    assert anchor in from;
    var k :| 0 <= k < |from| && from[k] == anchor;
    assert from[0] in from;
    assert k == 0;
    SinceContinues(log, session, anchor.num - 1, 1);
  }

  function MadeBefore(session: string, ms: int): Message -> bool {
    (m: Message) => m.session == session && m.created < ms
  }

  function MadeAfter(session: string, ms: int): Message -> bool {
    (m: Message) => m.session == session && m.created > ms
  }

  /** With a time alone: the last messages made before `before`, or the first ones made after `after`. */
  method PageByTime(log: Log, session: string, limit: nat, ms: int, forward: bool) returns (list: seq<Message>)
    requires WellNumbered(log)
    ensures list == if forward then Take(Whole(log, MadeAfter(session, ms), SeqLess), limit)
                    else Tail(Whole(log, MadeBefore(session, ms), SeqLess), limit)
  {
    var c := if forward then NO_CURSOR.(after := Some(At(ms))) else NO_CURSOR.(before := Some(At(ms)));
    list := MessageList(log, session, limit, c);
    if forward {
      SameAnswer(log, InWindow(log, session, c), MadeAfter(session, ms), SeqLess);
    } else {
      SameAnswer(log, InWindow(log, session, c), MadeBefore(session, ms), SeqLess);
    }
  }

  /**
   A time that does not parse bounds nothing, but as `after` it still turns the page round:
   the first messages of the session instead of the last.
   */
  method PageGarbled(log: Log, session: string, limit: nat, forward: bool) returns (list: seq<Message>)
    requires WellNumbered(log)
    ensures list == if forward then Take(Until(log, session, None), limit) else Tail(Until(log, session, None), limit)
  {
    var c := if forward then NO_CURSOR.(after := Some(Garbled)) else NO_CURSOR.(before := Some(Garbled));
    list := MessageList(log, session, limit, c);
    SameAnswer(log, InWindow(log, session, c), Below(session, None), SeqLess);
  }

  /** Everything below the first message of a page is everything before the page. */
  lemma UntilContinues(log: Log, session: string, k: nat)
    requires WellNumbered(log) && k < |Until(log, session, None)|
    ensures Until(log, session, Some(Until(log, session, None)[k].num)) == Until(log, session, None)[..k]
  {
    SeqOrders(log);
    var all := Until(log, session, None);
    var first := all[k];
    var part := Until(log, session, Some(first.num));
    WholeSorted(log, Below(session, None), SeqLess);
    WholeSorted(log, Below(session, Some(first.num)), SeqLess);
    forall x
      ensures x in part <==> x in all[..k]
    {
      EarlierMembers(log, all, session, k, x);
    }
    SortedUnique(part, all[..k], SeqLess);
  }

  lemma NumLess(log: Log, a: Message, b: Message)
    requires WellNumbered(log) && a in log && b in log && a.session == b.session && SeqLess(a, b)
    ensures a.num < b.num
  {
    TextIrreflexive(a.id);
    if a.num == b.num {
      SameMessage(log, a, b);
    }
  }

  lemma EarlierMembers(log: Log, all: seq<Message>, session: string, k: nat, x: Message)
    requires WellNumbered(log) && all == Until(log, session, None) && k < |all|
    requires Sorted(all, SeqLess) && Orders(all, SeqLess)
    ensures x in all[..k] <==> x in log && x.session == session && x.num < all[k].num
  {
    assert all[k] in all;
    if x in all {
      var i :| 0 <= i < |all| && all[i] == x;
      if x.num < all[k].num {
        LaterIndex(all, SeqLess, i, k);
        assert all[..k][i] == x;
      }
    }
    if x in all[..k] {
      var i :| 0 <= i < |all[..k]| && all[..k][i] == x;
      assert all[i] == x && SeqLess(all[i], all[k]);
      NumLess(log, x, all[k]);
    }
  }

  /** Walking backwards, each time from below the first message of the page, reads the whole session once. */
  method ReadBackwards(log: Log, session: string, limit: nat) returns (all: seq<Message>)
    requires WellNumbered(log) && limit >= 1
    ensures all == Until(log, session, None)
  {
    hide Until;
    ghost var whole := Until(log, session, None);
    var page := PageBefore(log, session, limit, None);
    all := page;
    while page != []
      invariant |all| <= |whole| && all == whole[|whole| - |all|..]
      invariant page == [] ==> |all| == |whole|
      invariant page != [] ==> all != [] && page[0] == all[0]
      decreases |whole| - |all|, |page|
    {
      UntilContinues(log, session, |whole| - |all|);
      page := PageBefore(log, session, limit, Some(page[0].num));
      all := page + all;
    }
  }

  function UpTo(session: string, num: int): Message -> bool {
    (m: Message) => m.session == session && m.num <= num
  }

  /** A `beforeId` page ends with the anchor itself, preceded by the `limit - 1` messages before it. */
  method PageAround(log: Log, session: string, limit: nat, anchor: Message) returns (list: seq<Message>)
    requires WellNumbered(log) && anchor in log && anchor.session == session && limit >= 1
    ensures list == Tail(Until(log, session, Some(anchor.num)), limit - 1) + [anchor]
  {
    var c := NO_CURSOR.(beforeId := Some(anchor.id));
    list := MessageList(log, session, limit, c);
    AnchorFound(log, anchor);
    SameAnswer(log, InWindow(log, session, c), UpTo(session, anchor.num), SeqMore);
    DescendingReversed(log, UpTo(session, anchor.num));
    ReversedTake(Whole(log, UpTo(session, anchor.num), SeqLess), limit);
    AnchorLast(log, session, anchor);
    TailWithLast(Until(log, session, Some(anchor.num)), anchor, limit);
  }

  lemma AnchorFound(log: Log, anchor: Message)
    requires WellNumbered(log) && anchor in log
    ensures SeqOf(log, Some(anchor.id)) == Some(anchor.num)
  {
    var at := SeqOf(log, Some(anchor.id));
    var m :| m in log && m.id == anchor.id && Some(m.num) == at;
    SameMessage(log, m, anchor);
  }

  lemma TailWithLast(xs: seq<Message>, x: Message, limit: nat)
    requires limit >= 1
    ensures Tail(xs + [x], limit) == Tail(xs, limit - 1) + [x]
  {
  }

  lemma AnchorLast(log: Log, session: string, anchor: Message)
    requires WellNumbered(log) && anchor in log && anchor.session == session
    ensures Whole(log, UpTo(session, anchor.num), SeqLess) == Until(log, session, Some(anchor.num)) + [anchor]
  {
    SeqOrders(log);
    var below, upTo := Until(log, session, Some(anchor.num)), Whole(log, UpTo(session, anchor.num), SeqLess);
    WholeSorted(log, Below(session, Some(anchor.num)), SeqLess);
    WholeSorted(log, UpTo(session, anchor.num), SeqLess);
    forall x
      ensures x in upTo <==> x in below + [anchor]
    {
      if x in upTo && x.num == anchor.num {
        SameMessage(log, x, anchor);
      }
    }
    forall i | 0 <= i < |below|
      ensures SeqLess(below[i], anchor)
    {
      assert below[i] in below;
    }
    SortedUnique(upTo, below + [anchor], SeqLess);
  }

  class MessageStore {
    var log: Log

    constructor ()
      ensures log == [] && WellNumbered(log)
    {
      log := [];
    }

    /** `save_message`: the next number of the session, in one transaction. */
    method SaveMessage(id: string, session: string, now: int) returns (saved: Option<Message>)
      requires WellNumbered(log)
      modifies this
      ensures WellNumbered(log)
      ensures saved.None? <==> exists m :: m in old(log) && m.id == id
      ensures saved.None? ==> log == old(log)
      ensures saved.Some? ==>
                && log == Save(old(log), id, session, now) && log == old(log) + [saved.value]
                && saved.value.id == id && saved.value.session == session && saved.value.created == now
                && (|| saved.value.num == 1
                    || exists m :: m in old(log) && m.session == session && m.num == saved.value.num - 1)
                && forall m :: m in old(log) && m.session == session ==> m.num < saved.value.num
    {
      if exists m :: m in log && m.id == id {
        return None;
      }
      var num := MaxSeq(log, session) + 1;
      var message := Message(id, session, num, now);
      SaveNumbered(log, id, session, now);
      log := log + [message];
      return Some(message);
    }

    /** `delete_messages_before`. */
    method DeleteMessagesBefore(cutoff: int)
      requires WellNumbered(log)
      modifies this
      ensures WellNumbered(log) && log == DeleteBefore(old(log), cutoff)
    {
      DeleteNumbered(log, cutoff);
      log := DeleteBefore(log, cutoff);
    }
  }
}
