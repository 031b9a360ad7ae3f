/**
 Runs in which expiry is not one step: its rows are read at one time and committed at another,
 with any handlers, reads and commits in between.
 */
module ExpiryRaces {
  import opened Wrappers
  import opened Sums
  import opened Bills
  import opened Books
  import opened BookRuns

  datatype Event = Handle(op: Op) | Read(now: int) | Commit(k: nat)

  /** The tables, and the rows of every read so far that has not been committed yet. */
  datatype World = World(s: Tables, batches: seq<set<Id>>)

  /** The rows an event commits. */
  function Committed(w: World, e: Event): set<Id> {
    if e.Commit? && e.k < |w.batches| then w.batches[e.k] else {}
  }

  ghost function Next(w: World, e: Event): World {
    match e
    case Handle(op) => World(Apply(w.s, op), w.batches)
    case Read(now) => World(w.s, w.batches + [Due(w.s, now)])
    case Commit(k) =>
      if k < |w.batches| then World(RefundRows(w.s, w.batches[k]), w.batches[k := {}]) else w
  }

  ghost function Final(w: World, events: seq<Event>): World
    decreases |events|
  {
    if events == [] then w else Final(Next(w, events[0]), events[1..])
  }

  /** Events take effect one after the other. */
  lemma {:induction false} FinalOneMore(w: World, events: seq<Event>, e: Event)
    ensures Final(w, []) == w
    ensures
      var mid, end := Final(w, events), Final(w, events + [e]);
      match e
      case Handle(op) => end == World(Apply(mid.s, op), mid.batches)
      case Read(now) => end == World(mid.s, mid.batches + [Due(mid.s, now)])
      case Commit(k) =>
        if k < |mid.batches| then end == World(RefundRows(mid.s, mid.batches[k]), mid.batches[k := {}]) else end == mid
    decreases |events|
  {
    hide Apply, RefundRows, Due;
    if events == [] {
      assert [] + [e] == [e] && [e][1..] == [];
    } else {
      assert (events + [e])[1..] == events[1..] + [e];
      FinalOneMore(Next(w, events[0]), events[1..], e);
    }
  }

  /** What holds in the middle of such runs, after stale commits too. */
  ghost predicate Intact(w: World) {
    TransfersSound(w.s) && forall k :: 0 <= k < |w.batches| ==> w.batches[k] <= w.s.transfers.Keys
  }

  // ---- what handlers do to the rows and to the money ----

  ghost function PaidIn(s: Tables, op: Op): int {
    if op.TopUpOp? && TopUp(s, op.user, op.amount).1 == Done then op.amount else 0
  }

  lemma HandlersKeepUsers(s: Tables, op: Op)
    ensures Apply(s, op).balances.Keys == s.balances.Keys
  {
    hide Sum, Total, Column, Rows, FairSplit, Share, Paid;
  }

  lemma NewRowSound(s: Tables, op: Op, id: Id)
    requires id in Apply(s, op).transfers && id !in s.transfers
    ensures TransferSound(Apply(s, op).balances, Apply(s, op).transfers[id])
  {
    hide Sum, Total, Column, Rows, FairSplit, Share, Paid;
  }

  lemma HandlersKeepRows(s: Tables, op: Op)
    requires TransfersSound(s)
    ensures TransfersSound(Apply(s, op))
  {
    hide Apply;
    ApplyEvolves(s, op);
    HandlersKeepUsers(s, op);
    forall id | id in Apply(s, op).transfers
      ensures TransferSound(Apply(s, op).balances, Apply(s, op).transfers[id])
    {
      if id in s.transfers {
        assert TransferSound(s.balances, s.transfers[id]);
      } else {
        NewRowSound(s, op, id);
      }
    }
  }

  lemma TopUpWorth(s: Tables, user: User, amount: int)
    ensures Worth(TopUp(s, user, amount).0) == Worth(s) + PaidIn(s, TopUpOp(user, amount))
  {
    hide Sum, Total, Column;
    if TopUp(s, user, amount).1 == Done {
      SumUpdate(s.balances, user, s.balances[user] + amount);
    }
  }

  lemma CloseWorth(s: Tables, id: Id, user: User, state: TransferState)
    requires id in s.transfers && s.transfers[id].state == Pending && state != Pending && user in s.balances
    ensures Worth(MoveMoney(s, user, s.transfers[id].amount, id, s.transfers[id].(state := state))) == Worth(s)
  {
    hide Worth;
    MoveMoneyWorth(s, user, s.transfers[id].amount, id, s.transfers[id].(state := state));
  }

  lemma SettleWorth(s: Tables, id: Id, accept: bool)
    ensures Worth(Settle(s, id, accept).0) == Worth(s)
  {
    hide Worth;
    if Settle(s, id, accept).1 == Done {
      var t := s.transfers[id];
      CloseWorth(s, id, if accept then t.to else t.from, if accept then Accepted else Rejected);
    }
  }

  lemma CancelRefundWorth(s: Tables, id: Id)
    ensures Worth(CancelRefund(s, id).0) == Worth(s)
  {
    hide Worth;
    if CancelRefund(s, id).1 == Done {
      CloseWorth(s, id, s.transfers[id].from, Refunded);
    }
  }

  lemma EscrowWorth(s: Tables, id: Id, from: User, to: User, amount: int, expiredAt: int)
    ensures Worth(Escrow(s, id, from, to, amount, expiredAt).0) == Worth(s)
  {
    hide Worth;
    if Escrow(s, id, from, to, amount, expiredAt).1 == Done {
      MoveMoneyWorth(s, from, -amount, id, Transfer(from, to, amount, Pending, expiredAt));
    }
  }

  lemma ExpireWorth(s: Tables, now: int)
    requires TransfersSound(s)
    ensures Worth(Expire(s, now)) == Worth(s)
  {
    hide Worth, RefundRows;
    StaleRefundExact(s, Due(s, now));
  }

  /** A handler changes the money in the system by what it pays in, whatever stale commits did before. */
  lemma HandlerWorth(s: Tables, op: Op)
    requires TransfersSound(s)
    ensures Worth(Apply(s, op)) == Worth(s) + PaidIn(s, op)
  {
    hide Worth, Escrow, CancelRefund, Settle, Expire, TransfersSound, FairSplit;
    match op
    case TopUpOp(user, amount) => TopUpWorth(s, user, amount);
    case SendOp(id, from, to, amount, now, _, _) =>
      EscrowWorth(s, id, from, to, amount, now + DAY_MS);
      CancelRefundWorth(Escrow(s, id, from, to, amount, now + DAY_MS).0, id);
    case AnswerOp(id, _, accept, now) =>
      ExpireWorth(s, now);
      SettleWorth(s, id, accept);
    case ExpireOp(now) => ExpireWorth(s, now);
    case PayOp(id, payer, amount) =>
      if PayBill(s, id, payer, amount).1 == Done {
        PayBillWorth(s, id, payer, amount);
      }
    case _ => BillsHoldNothing(s, op);
  }

  lemma BillsHoldNothing(s: Tables, op: Op)
    requires op.OpenOp? || op.CancelOp?
    ensures Worth(Apply(s, op)) == Worth(s)
  {
    hide Sum, Total, Column, FairSplit;
  }

  // ---- the money over a run ----

  ghost function PaidInBy(w: World, e: Event): int {
    if e.Handle? then PaidIn(w.s, e.op) else 0
  }

  /** Money that entered the system through top-ups. */
  ghost function Deposits(w: World, events: seq<Event>): int
    decreases |events|
  {
    if events == [] then 0 else PaidInBy(w, events[0]) + Deposits(Next(w, events[0]), events[1..])
  }

  /** The amounts of committed rows that were no longer pending when they were committed. */
  ghost function Overpaid(w: World, events: seq<Event>): int
    decreases |events|
  {
    if events == [] then 0
    else Total(Rows(w.s, Committed(w, events[0])), Stale()) + Overpaid(Next(w, events[0]), events[1..])
  }

  lemma NothingStale(s: Tables)
    ensures Total(Rows(s, {}), Stale()) == 0
  {
    NoRows(s);
  }

  lemma CommittedKnown(w: World, e: Event)
    requires Intact(w)
    ensures Committed(w, e) <= w.s.transfers.Keys
    ensures forall id :: id in Committed(w, e) ==> id in w.s.transfers && w.s.transfers[id].from in w.s.balances
    ensures forall id :: id in Committed(w, e) ==> id in w.s.transfers && w.s.transfers[id].amount > 0
  {
    forall id | id in Committed(w, e)
      ensures id in w.s.transfers && TransferSound(w.s.balances, w.s.transfers[id])
    {
    }
  }

  lemma RefundKeepsRows(s: Tables, ids: set<Id>)
    requires TransfersSound(s)
    ensures TransfersSound(RefundRows(s, ids)) && RefundRows(s, ids).transfers.Keys == s.transfers.Keys
  {
    hide Sum, Total, Column, Rows;
    forall id | id in s.transfers
      ensures TransferSound(RefundRows(s, ids).balances, RefundRows(s, ids).transfers[id])
    {
      assert TransferSound(s.balances, s.transfers[id]);
    }
  }

  lemma NextIntact(w: World, e: Event)
    requires Intact(w)
    ensures Intact(Next(w, e))
  {
    hide TransfersSound, Apply, RefundRows;
    match e
    case Handle(op) =>
      HandlersKeepRows(w.s, op);
      ApplyEvolves(w.s, op);
      forall k | 0 <= k < |w.batches|
        ensures w.batches[k] <= Apply(w.s, op).transfers.Keys
      {
      }
    case Read(now) =>
    case Commit(k) =>
      if k < |w.batches| {
        RefundKeepsRows(w.s, w.batches[k]);
      }
  }

  lemma NextWorth(w: World, e: Event)
    requires Intact(w)
    ensures Worth(Next(w, e).s) == Worth(w.s) + PaidInBy(w, e) + Total(Rows(w.s, Committed(w, e)), Stale())
  {
    hide Worth, Apply, RefundRows, Rows, Total, Intact;
    NothingStale(w.s);
    CommittedKnown(w, e);
    match e
    case Handle(op) =>
      IntactRows(w);
      HandlerWorth(w.s, op);
    case Read(now) =>
    case Commit(k) =>
      if k < |w.batches| {
        RefundWorth(w.s, w.batches[k]);
      }
  }

  lemma IntactRows(w: World)
    requires Intact(w)
    ensures TransfersSound(w.s)
  {
  }

  /** Over every such run money grows by the accepted top-ups and by what stale commits pay again. */
  lemma {:induction false} RacedWorth(w: World, events: seq<Event>)
    requires Intact(w)
    ensures Intact(Final(w, events))
    ensures Worth(Final(w, events).s) == Worth(w.s) + Deposits(w, events) + Overpaid(w, events)
    decreases |events|
  {
    hide Intact, Worth, Next, Rows, Total;
    if events != [] {
      NextIntact(w, events[0]);
      NextWorth(w, events[0]);
      RacedWorth(Next(w, events[0]), events[1..]);
    }
  }

  /** Every commit of the run finds all its rows still pending. */
  ghost predicate AlwaysFresh(w: World, events: seq<Event>)
    decreases |events|
  {
    events != [] ==>
      && (forall id :: id in Committed(w, events[0]) && id in w.s.transfers ==> w.s.transfers[id].state == Pending)
      && AlwaysFresh(Next(w, events[0]), events[1..])
  }

  lemma {:induction false} OverpaidExact(w: World, events: seq<Event>)
    requires Intact(w)
    ensures Overpaid(w, events) >= 0
    ensures Overpaid(w, events) == 0 <==> AlwaysFresh(w, events)
    decreases |events|
  {
    hide Intact, Next, Rows, Total, Committed;
    if events != [] {
      NextIntact(w, events[0]);
      OverpaidExact(Next(w, events[0]), events[1..]);
      CommittedKnown(w, events[0]);
      StaleTotal(w.s, Committed(w, events[0]));
      StaleNonNegative(w.s, Committed(w, events[0]));
    }
  }

  lemma StaleNonNegative(s: Tables, ids: set<Id>)
    requires ids <= s.transfers.Keys && forall id :: id in ids ==> s.transfers[id].amount > 0
    ensures Total(Rows(s, ids), Stale()) >= 0
  {
    SumNonNegative(Column(Rows(s, ids), Stale()));
  }

  /** A run with overlapping expiries conserves money if and only if no commit was stale. */
  lemma RacedConservesExactly(w: World, events: seq<Event>)
    requires Intact(w)
    ensures Worth(Final(w, events).s) == Worth(w.s) + Deposits(w, events) <==> AlwaysFresh(w, events)
  {
    hide Intact, Worth, Final, Deposits, Overpaid, AlwaysFresh;
    RacedWorth(w, events);
    OverpaidExact(w, events);
  }

  /** With nothing in between, reading and committing is one expiry; a handler alone is that handler. */
  lemma NothingBetween(w: World, now: int, op: Op)
    ensures Final(w, [Read(now), Commit(|w.batches|)]).s == Expire(w.s, now)
    ensures Final(w, [Handle(op)]).s == Apply(w.s, op)
  {
    hide Apply, RefundRows, Due;
    var one, two := Next(w, Read(now)), Next(Next(w, Read(now)), Commit(|w.batches|));
    assert [Read(now), Commit(|w.batches|)][1..] == [Commit(|w.batches|)];
    assert [Commit(|w.batches|)][1..] == [];
    assert one.batches[|w.batches|] == Due(w.s, now);
    assert Final(one, [Commit(|w.batches|)]) == two;
    assert [Handle(op)][1..] == [];
  }

  /** Two expiries that both read before either commits conserve money if and only if nothing was due. */
  lemma OverlapConservesExactly(w: World, now: int)
    requires Intact(w)
    ensures
      var n := |w.batches|;
      var end := Final(w, [Read(now), Read(now), Commit(n), Commit(n + 1)]);
      Worth(end.s) == Worth(w.s) <==>
      forall id :: id in w.s.transfers && w.s.transfers[id].expiredAt <= now ==> w.s.transfers[id].state != Pending
  {
    hide Apply, Worth, Sum, Total;
    var n := |w.batches|;
    var w1 := Next(w, Read(now));
    var w2 := Next(w1, Read(now));
    var w3 := Next(w2, Commit(n));
    var r4 := [Read(now), Read(now), Commit(n), Commit(n + 1)];
    var r3 := [Read(now), Commit(n), Commit(n + 1)];
    var r2 := [Commit(n), Commit(n + 1)];
    var r1 := [Commit(n + 1)];
    var r0: seq<Event> := [];
    assert r4[1..] == r3 && r3[1..] == r2 && r2[1..] == r1 && r1[1..] == r0;
    RacedConservesExactly(w, r4);
    NoTopUps(w, r4);
    assert w2.batches[n] == w2.batches[n + 1] == w3.batches[n + 1] == Due(w.s, now);
    assert AlwaysFresh(w, r4) == AlwaysFresh(w1, r3) == AlwaysFresh(w2, r2);
    assert AlwaysFresh(w2, r2) == AlwaysFresh(w3, r1);
    assert Committed(w3, Commit(n + 1)) == Due(w.s, now);
    assert AlwaysFresh(Next(w3, Commit(n + 1)), r0);
    assert AlwaysFresh(w3, r1) <==> forall id :: id in Due(w.s, now) && id in w3.s.transfers ==>
                                                   w3.s.transfers[id].state == Pending;
    forall id | id in Due(w.s, now)
      ensures id in w3.s.transfers && w3.s.transfers[id].state == Refunded
    {
    }
    assert Worth(Final(w, r4).s) == Worth(w.s) <==> Due(w.s, now) == {};
    if id :| id in w.s.transfers && w.s.transfers[id].expiredAt <= now && w.s.transfers[id].state == Pending {
      assert id in Due(w.s, now);
    } else {
      assert forall id :: id !in Due(w.s, now);
    }
  }

  lemma {:induction false} NoTopUps(w: World, events: seq<Event>)
    requires forall i :: 0 <= i < |events| ==> !events[i].Handle?
    ensures Deposits(w, events) == 0
    decreases |events|
  {
    hide Next;
    if events != [] {
      NoTopUps(Next(w, events[0]), events[1..]);
    }
  }

  // ---- one row over a run ----

  /** Some commit of the run lists the row. */
  ghost predicate Listed(w: World, events: seq<Event>, id: Id)
    decreases |events|
  {
    events != [] && (id in Committed(w, events[0]) || Listed(Next(w, events[0]), events[1..], id))
  }

  lemma ClosedNext(w: World, e: Event, id: Id)
    requires id in w.s.transfers && w.s.transfers[id].state != Pending
    ensures id in Next(w, e).s.transfers
    ensures Next(w, e).s.transfers[id] ==
            if id in Committed(w, e) then w.s.transfers[id].(state := Refunded) else w.s.transfers[id]
  {
    hide Apply, Total, Rows;
    if e.Handle? {
      ApplyEvolves(w.s, e.op);
    }
  }

  /** A closed row is rewritten to `Refunded` if a later commit lists it, and is otherwise left alone. */
  lemma {:induction false} ClosedRow(w: World, events: seq<Event>, id: Id)
    requires id in w.s.transfers && w.s.transfers[id].state != Pending
    ensures id in Final(w, events).s.transfers
    ensures Final(w, events).s.transfers[id] ==
            if Listed(w, events, id) then w.s.transfers[id].(state := Refunded) else w.s.transfers[id]
    decreases |events|
  {
    hide Next, Committed;
    if events != [] {
      ClosedNext(w, events[0], id);
      ClosedRow(Next(w, events[0]), events[1..], id);
    }
  }

  /** An accepted or rejected row stays as it is if and only if no later commit lists it. */
  lemma ClosedRowExactly(w: World, events: seq<Event>, id: Id)
    requires id in w.s.transfers && w.s.transfers[id].state in {Accepted, Rejected}
    ensures id in Final(w, events).s.transfers
    ensures Final(w, events).s.transfers[id] == w.s.transfers[id] <==> !Listed(w, events, id)
  {
    hide Listed, Final;
    ClosedRow(w, events, id);
  }
}
