/**
 Forward synchronisation while the log changes: between two pages others insert messages and
 retention deletes old ones.
 */
module LiveSync {
  import opened Select
  import opened MessageLog
  import opened TextOrder

  /** One page: the messages and the cursor to continue with. */
  ghost function PageOf(log: Log, session: string, cursor: int, n: int): seq<Message> {
    Take(Since(log, session, cursor), n)
  }

  ghost function NextCursor(log: Log, session: string, cursor: int, n: int): int {
    var page := PageOf(log, session, cursor, n);
    if page == [] then cursor else page[|page| - 1].num
  }

  /** What one answer of `sync.delta` holds is that page and that cursor. */
  lemma DeltaIsPage(log: Log, session: string, cursor: int, n: int, page: Page)
    requires IsDelta(log, session, cursor, n, page)
    ensures page.messages == PageOf(log, session, cursor, n) && page.lastSeq == NextCursor(log, session, cursor, n)
  {
  }

  /** All pages of a client that asks once, and once more after each batch of changes. */
  ghost function Collected(log: Log, session: string, cursor: int, n: int, changes: seq<seq<Op>>): seq<Message>
    decreases |changes|
  {
    if changes == [] then PageOf(log, session, cursor, n)
    else
      PageOf(log, session, cursor, n)
      + Collected(Run(log, changes[0]), session, NextCursor(log, session, cursor, n), n, changes[1..])
  }

  /** The cursor of that client after its last page. */
  ghost function LastCursor(log: Log, session: string, cursor: int, n: int, changes: seq<seq<Op>>): int
    decreases |changes|
  {
    var next := NextCursor(log, session, cursor, n);
    if changes == [] then next else LastCursor(Run(log, changes[0]), session, next, n, changes[1..])
  }

  ghost function Latest(log: Log, changes: seq<seq<Op>>): Log
    decreases |changes|
  {
    if changes == [] then log else Latest(Run(log, changes[0]), changes[1..])
  }

  ghost predicate Inserts(ops: seq<Op>) {
    forall i :: 0 <= i < |ops| ==> ops[i].SaveOp?
  }

  // ---- inserts only ----

  lemma {:induction false} InsertsAppend(log: Log, ops: seq<Op>)
    requires Inserts(ops)
    ensures log <= Run(log, ops)
    decreases |ops|
  {
    hide MaxSeq;
    if ops != [] {
      var SaveOp(id, session, now) := ops[0];
      InsertsAppend(if exists m :: m in log && m.id == id then log else Save(log, id, session, now), ops[1..]);
    }
  }

  lemma {:induction false} LatestAppends(log: Log, changes: seq<seq<Op>>)
    requires WellNumbered(log) && forall i :: 0 <= i < |changes| ==> Inserts(changes[i])
    ensures log <= Latest(log, changes) && WellNumbered(Latest(log, changes))
    decreases |changes|
  {
    hide Run, WellNumbered;
    if changes != [] {
      InsertsAppend(log, changes[0]);
      EveryLogNumbered(log, changes[0]);
      LatestAppends(Run(log, changes[0]), changes[1..]);
    }
  }

  lemma {:induction false} FilterPrefix(a: Log, b: Log, keep: Message -> bool)
    requires a <= b
    ensures Filter(a, keep) <= Filter(b, keep)
  {
    if a != [] {
      FilterPrefix(a[1..], b[1..], keep);
    }
  }

  /** A longer log answers with a longer list that starts the same. */
  lemma SincePrefix(a: Log, b: Log, session: string, cursor: int)
    requires a <= b && WellNumbered(a) && WellNumbered(b)
    ensures Since(a, session, cursor) <= Since(b, session, cursor)
  {
    SinceIsInsertionOrder(a, session, cursor);
    SinceIsInsertionOrder(b, session, cursor);
    FilterPrefix(a, b, Above(session, cursor));
  }

  /** A page is the beginning of what the final log holds, and the rest follows behind its cursor. */
  lemma PageOfFinal(log: Log, final: Log, session: string, cursor: int, n: int)
    requires log <= final && WellNumbered(log) && WellNumbered(final)
    ensures
      var page, all := PageOf(log, session, cursor, n), Since(final, session, cursor);
      && page <= all && |page| <= |all|
      && Since(final, session, NextCursor(log, session, cursor, n)) == all[|page|..]
  {
    hide Since, WellNumbered;
    SincePrefix(log, final, session, cursor);
    var k := |PageOf(log, session, cursor, n)|;
    if k > 0 {
      SinceContinues(final, session, cursor, k);
    }
  }

  /**
   With any inserts between the pages, a client collects a prefix of what the log holds above
   its first cursor: in order, once each, nothing skipped.
   */
  lemma {:induction false} CollectsPrefix(log: Log, session: string, cursor: int, n: int, changes: seq<seq<Op>>)
    requires WellNumbered(log) && forall i :: 0 <= i < |changes| ==> Inserts(changes[i])
    ensures
      var got, all := Collected(log, session, cursor, n, changes), Since(Latest(log, changes), session, cursor);
      && got <= all && |got| <= |all|
      && Since(Latest(log, changes), session, LastCursor(log, session, cursor, n, changes)) == all[|got|..]
    decreases |changes|
  {
    hide Since, WellNumbered, Run, PageOf, NextCursor;
    var final, next := Latest(log, changes), NextCursor(log, session, cursor, n);
    LatestAppends(log, changes);
    PageOfFinal(log, final, session, cursor, n);
    if changes != [] {
      EveryLogNumbered(log, changes[0]);
      CollectsPrefix(Run(log, changes[0]), session, next, n, changes[1..]);
    }
  }

  /** When the last page announced nothing more, the client has everything. */
  lemma CollectsAll(log: Log, session: string, cursor: int, n: int, changes: seq<seq<Op>>)
    requires WellNumbered(log) && forall i :: 0 <= i < |changes| ==> Inserts(changes[i])
    requires Since(Latest(log, changes), session, LastCursor(log, session, cursor, n, changes)) == []
    ensures Collected(log, session, cursor, n, changes) == Since(Latest(log, changes), session, cursor)
  {
    hide Since, WellNumbered, Latest, LastCursor, Collected;
    CollectsPrefix(log, session, cursor, n, changes);
  }

  // ---- with retention ----

  /** The message is in the log at every page. */
  ghost predicate Survives(log: Log, changes: seq<seq<Op>>, m: Message)
    decreases |changes|
  {
    m in log && (changes != [] ==> Survives(Run(log, changes[0]), changes[1..], m))
  }

  lemma CursorSplits(log: Log, session: string, cursor: int, n: int, m: Message)
    requires WellNumbered(log) && m in log && m.session == session && n >= 1
    ensures cursor <= NextCursor(log, session, cursor, n)
    ensures m in PageOf(log, session, cursor, n) <==> cursor < m.num <= NextCursor(log, session, cursor, n)
  {
    var all, page := Since(log, session, cursor), PageOf(log, session, cursor, n);
    if page != [] {
      var k := |page|;
      SinceContinues(log, session, cursor, k);
      var last := all[k - 1];
      assert last in all;
      hide Since, WellNumbered;
      assert all == page + all[k..];
      if m in page && m.num > last.num {
        SplitOnce(log, session, cursor, k, m);
      }
    } else {
      assert all == [];
    }
  }

  /** No message is on both sides of a page boundary. */
  lemma SplitOnce(log: Log, session: string, cursor: int, k: nat, m: Message)
    requires WellNumbered(log) && k <= |Since(log, session, cursor)|
    ensures !(m in Since(log, session, cursor)[..k] && m in Since(log, session, cursor)[k..])
  {
    var all := Since(log, session, cursor);
    SeqOrders(log);
    WholeSorted(log, Above(session, cursor), SeqLess);
    forall i, j | 0 <= i < k <= j < |all|
      ensures all[i] != all[j]
    {
      assert SeqLess(all[i], all[j]);
      TextIrreflexive(all[i].id);
    }
  }

  lemma {:induction false} LastCursorGrows(log: Log, session: string, cursor: int, n: int, changes: seq<seq<Op>>)
    requires WellNumbered(log) && n >= 1
    ensures cursor <= LastCursor(log, session, cursor, n, changes)
    decreases |changes|
  {
    hide Run, WellNumbered;
    NextGrows(log, session, cursor, n);
    if changes != [] {
      EveryLogNumbered(log, changes[0]);
      LastCursorGrows(Run(log, changes[0]), session, NextCursor(log, session, cursor, n), n, changes[1..]);
    }
  }

  lemma NextGrows(log: Log, session: string, cursor: int, n: int)
    requires n >= 1
    ensures cursor <= NextCursor(log, session, cursor, n)
  {
    var all, page := Since(log, session, cursor), PageOf(log, session, cursor, n);
    if page != [] {
      assert all[|page| - 1] in all;
    }
  }

  /**
   With inserts and deletes between the pages, a message that stays is returned exactly when
   its number lies above the cursor the client held when the message was there first, and not
   above the cursor it holds in the end.
   */
  lemma {:induction false} SurvivorCollected(
    log: Log, session: string, cursor: int, n: int, changes: seq<seq<Op>>, m: Message)
    requires WellNumbered(log) && n >= 1 && m.session == session && Survives(log, changes, m)
    ensures m in Collected(log, session, cursor, n, changes) <==>
            cursor < m.num <= LastCursor(log, session, cursor, n, changes)
    decreases |changes|
  {
    hide Run, WellNumbered, PageOf, NextCursor, Since;
    CursorSplits(log, session, cursor, n, m);
    if changes != [] {
      var next := NextCursor(log, session, cursor, n);
      EveryLogNumbered(log, changes[0]);
      SurvivorCollected(Run(log, changes[0]), session, next, n, changes[1..], m);
      LastCursorGrows(Run(log, changes[0]), session, next, n, changes[1..]);
    }
  }

  /**
   A message inserted while the client is at `cursor`, that stays from then on, is collected
   once the client has caught up if and only if the cursor was not above the live maximum.
   */
  lemma NewcomerCollected(
    log: Log, id: string, session: string, now: int, cursor: int, n: int, changes: seq<seq<Op>>)
    requires WellNumbered(log) && (forall m :: m in log ==> m.id != id) && n >= 1
    requires
      var log' := Save(log, id, session, now);
      var m := log'[|log|];
      Survives(log', changes, m) && m.num <= LastCursor(log', session, cursor, n, changes)
    ensures
      var log' := Save(log, id, session, now);
      log'[|log|] in Collected(log', session, cursor, n, changes) <==> cursor <= MaxSeq(log, session)
  {
    var log' := Save(log, id, session, now);
    SaveNumbered(log, id, session, now);
    hide WellNumbered, Survives, LastCursor, Collected;
    SurvivorCollected(log', session, cursor, n, changes, log'[|log|]);
  }
}
