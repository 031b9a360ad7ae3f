/**
 The money handlers over mutable tables. Each transaction works on a local copy of the
 balances and stores it only at the end, so a refused handler rolls back by returning.
 */
module Ledger {
  import opened Wrappers
  import opened Sums
  import opened Bills
  import opened Books
  import BookRuns

  const MAX_MEMBERS: nat := 200

  /** The requested participants: the caller and repetitions dropped, first mention first. */
  function Requested(me: User, raw: seq<User>): seq<User> {
    if raw == [] then []
    else
      var rest, last := Requested(me, raw[..|raw| - 1]), raw[|raw| - 1];
      if last == me || last in rest then rest else rest + [last]
  }

  /** Everybody in the list but the caller. */
  function Others(me: User, ids: seq<User>): seq<User> {
    if ids == [] then []
    else
      var rest, last := Others(me, ids[..|ids| - 1]), ids[|ids| - 1];
      if last == me then rest else rest + [last]
  }

  function Candidates(me: User, memberIds: seq<User>, raw: seq<User>): seq<User> {
    if Requested(me, raw) != [] then Requested(me, raw) else Others(me, memberIds)
  }

  lemma {:induction false} RequestedClean(me: User, raw: seq<User>)
    ensures Distinct(Requested(me, raw))
    ensures forall u :: u in Requested(me, raw) <==> u in raw && u != me
  {
    if raw != [] {
      var front, last := raw[..|raw| - 1], raw[|raw| - 1];
      RequestedClean(me, front);
      assert raw == front + [last];
    }
  }

  lemma {:induction false} OthersClean(me: User, ids: seq<User>)
    requires Distinct(ids)
    ensures Distinct(Others(me, ids))
    ensures forall u :: u in Others(me, ids) <==> u in ids && u != me
  {
    if ids != [] {
      var front, last := ids[..|ids| - 1], ids[|ids| - 1];
      OthersClean(me, front);
      assert ids == front + [last];
      assert last !in front;
    }
  }

  /** The requested participants if there are any besides the caller, everybody else otherwise. */
  lemma CandidatesClean(me: User, memberIds: seq<User>, raw: seq<User>)
    requires Distinct(memberIds)
    ensures Distinct(Candidates(me, memberIds, raw)) && me !in Candidates(me, memberIds, raw)
    ensures forall u :: u in Candidates(me, memberIds, raw) <==>
                        u != me && if exists v :: v in raw && v != me then u in raw else u in memberIds
  {
    RequestedClean(me, raw);
    OthersClean(me, memberIds);
    if Requested(me, raw) != [] {
      assert Requested(me, raw)[0] in Requested(me, raw);
    }
  }

  /** Participants come in the order of their first mention. */
  lemma {:induction false} RequestedInOrder(me: User, raw: seq<User>, i: nat, j: nat)
    requires i < j < |Requested(me, raw)|
    ensures exists p :: 0 <= p < |raw| && raw[p] == Requested(me, raw)[i] && Requested(me, raw)[j] !in raw[..p]
  {
    var front, last := raw[..|raw| - 1], raw[|raw| - 1];
    var rest, all := Requested(me, front), Requested(me, raw);
    assert all[i] == rest[i];
    if j < |rest| {
      RequestedInOrder(me, front, i, j);
      var p :| 0 <= p < |front| && front[p] == rest[i] && rest[j] !in front[..p];
      assert raw[p] == all[i] && raw[..p] == front[..p];
    } else {
      RequestedClean(me, front);
      assert rest[i] in rest && last !in front;
      var p :| 0 <= p < |front| && front[p] == rest[i];
      assert raw[p] == all[i] && forall x :: x in raw[..p] ==> x in front;
    }
  }

  lemma {:induction false} OthersInOrder(me: User, ids: seq<User>, i: nat, j: nat)
    requires Distinct(ids) && i < j < |Others(me, ids)|
    ensures exists p :: 0 <= p < |ids| && ids[p] == Others(me, ids)[i] && Others(me, ids)[j] !in ids[..p]
  {
    var front, last := ids[..|ids| - 1], ids[|ids| - 1];
    var rest, all := Others(me, front), Others(me, ids);
    assert all[i] == rest[i];
    OthersClean(me, front);
    if j < |rest| {
      OthersInOrder(me, front, i, j);
      var p :| 0 <= p < |front| && front[p] == rest[i] && rest[j] !in front[..p];
      assert ids[p] == all[i] && ids[..p] == front[..p];
    } else {
      assert rest[i] in rest && last !in front;
      var p :| 0 <= p < |front| && front[p] == rest[i];
      assert ids[p] == all[i] && forall x :: x in ids[..p] ==> x in front;
    }
  }

  /** The two loops of bill creation that settle who takes part. */
  method CollectCandidates(me: User, memberIds: seq<User>, raw: seq<User>) returns (candidates: seq<User>)
    ensures candidates == Candidates(me, memberIds, raw)
  {
    var requested: seq<User> := [];
    for i := 0 to |raw|
      invariant requested == Requested(me, raw[..i])
    {
      assert raw[..i + 1][..i] == raw[..i];
      if raw[i] == me || raw[i] in requested {
        continue;
      }
      requested := requested + [raw[i]];
    }
    assert raw[..|raw|] == raw;
    candidates := requested;
    if requested == [] {
      for i := 0 to |memberIds|
        invariant candidates == Others(me, memberIds[..i])
      {
        assert memberIds[..i + 1][..i] == memberIds[..i];
        if memberIds[i] != me {
          candidates := candidates + [memberIds[i]];
        }
      }
      assert memberIds[..|memberIds|] == memberIds;
    }
  }

  /** The part of the raw splits a custom bill keeps. */
  ghost function Chosen(candidates: seq<User>, splits: map<User, int>): map<User, int> {
    map u | u in candidates && u in splits :: splits[u]
  }

  /** A custom split every candidate appears in, positively, adding up to the total. */
  ghost predicate SplitAccepted(candidates: seq<User>, splits: map<User, int>, total: int) {
    && (forall u :: u in candidates ==> u in splits && splits[u] > 0)
    && Sum(Chosen(candidates, splits)) == total
  }

  /** The custom-split loop of bill creation: positive shares for all, adding up to the total. */
  method CollectSplits(candidates: seq<User>, splits: map<User, int>, total: int)
    returns (r: Result<map<User, int>, Reply>)
    requires Distinct(candidates)
    ensures r.Ok? <==> SplitAccepted(candidates, splits, total)
    ensures r.Ok? ==> r.value == Chosen(candidates, splits)
    ensures r.Err? ==> r.error == BadSplit
  {
    hide SplitAccepted, Sum, Chosen;
    var custom: map<User, int> := map[];
    var sum := 0;
    ChosenNone(splits);
    for i := 0 to |candidates|
      invariant forall j :: 0 <= j < i ==> candidates[j] in splits && splits[candidates[j]] > 0
      invariant custom == Chosen(candidates[..i], splits)
      invariant sum == Sum(custom)
    {
      var id := candidates[i];
      if id !in splits || splits[id] <= 0 {
        SplitRefused(candidates, splits, total, id);
        return Err(BadSplit);
      }
      ChosenStep(candidates, splits, i);
      custom := custom[id := splits[id]];
      sum := sum + splits[id];
    }
    assert candidates[..|candidates|] == candidates;
    SplitDecided(candidates, splits, total);
    if sum != total {
      return Err(BadSplit);
    }
    return Ok(custom);
  }

  lemma ChosenNone(splits: map<User, int>)
    ensures Chosen([], splits) == map[] && Sum(Chosen([], splits)) == 0
  {
  }

  lemma ChosenStep(candidates: seq<User>, splits: map<User, int>, i: nat)
    requires Distinct(candidates) && i < |candidates| && candidates[i] in splits
    ensures
      var id := candidates[i];
      && Chosen(candidates[..i + 1], splits) == Chosen(candidates[..i], splits)[id := splits[id]]
      && Sum(Chosen(candidates[..i + 1], splits)) == Sum(Chosen(candidates[..i], splits)) + splits[id]
  {
    hide Sum;
    var id := candidates[i];
    assert candidates[..i + 1] == candidates[..i] + [id];
    assert id !in candidates[..i];
    SumUpdate(Chosen(candidates[..i], splits), id, splits[id]);
  }

  lemma SplitDecided(candidates: seq<User>, splits: map<User, int>, total: int)
    requires forall j :: 0 <= j < |candidates| ==> candidates[j] in splits && splits[candidates[j]] > 0
    ensures SplitAccepted(candidates, splits, total) <==> Sum(Chosen(candidates, splits)) == total
  {
    hide Sum, Chosen;
  }

  lemma SplitRefused(candidates: seq<User>, splits: map<User, int>, total: int, id: User)
    requires id in candidates && (id !in splits || splits[id] <= 0)
    ensures !SplitAccepted(candidates, splits, total)
  {
  }

  lemma SplitMeaning(candidates: seq<User>, splits: map<User, int>, total: int)
    ensures Chosen(candidates, splits) == map u | u in candidates && u in splits :: splits[u]
    ensures SplitAccepted(candidates, splits, total) <==>
            && (forall u :: u in candidates ==> u in splits && splits[u] > 0)
            && Sum(map u | u in candidates && u in splits :: splits[u]) == total
  {
  }

  lemma CreatedBillIsNew(bill: Bill, me: User, memberIds: seq<User>, raw: seq<User>, splits: map<User, int>)
    requires Distinct(memberIds)
    requires bill.participants == Candidates(me, memberIds, raw) && |bill.participants| >= 1
    requires bill.creator == me && bill.total > 0
    requires bill.settled == 0 && bill.status == Open && bill.payments == map[]
    requires match bill.split
             case Custom(shares) =>
               SplitAccepted(bill.participants, splits, bill.total) && shares == Chosen(bill.participants, splits)
             case Equal => bill.total >= |bill.participants|
    ensures BookRuns.NewBill(bill)
  {
    CandidatesClean(me, memberIds, raw);
  }

  // ---- the laws, as the handlers use them ----

  lemma TopUpKeeps(s: Tables, user: User, amount: int)
    ensures Sound(s) ==> Sound(Books.TopUp(s, user, amount).0)
  {
    hide Sound;
    if Sound(s) {
      TopUpSound(s, user, amount);
    }
  }

  lemma EscrowKeeps(s: Tables, id: Id, from: User, to: User, amount: int, expiredAt: int)
    ensures Sound(s) && amount > 0 && from != to ==> Sound(Escrow(s, id, from, to, amount, expiredAt).0)
  {
    hide Sound;
    if Sound(s) && amount > 0 && from != to {
      EscrowSound(s, id, from, to, amount, expiredAt);
    }
  }

  lemma CancelRefundKeeps(s: Tables, id: Id)
    ensures Sound(s) ==> Sound(CancelRefund(s, id).0)
  {
    hide Sound;
    if Sound(s) {
      CancelRefundSound(s, id);
    }
  }

  lemma SendKeeps(s: Tables, id: Id, from: User, to: User, amount: int, now: int, allowed: bool, delivered: bool)
    ensures Sound(s) ==> Sound(Send(s, id, from, to, amount, now, allowed, delivered).0)
  {
    hide Sound;
    if Sound(s) {
      SendSound(s, id, from, to, amount, now, allowed, delivered);
    }
  }

  lemma SettleKeeps(s: Tables, id: Id, accept: bool)
    ensures Sound(s) ==> Sound(Settle(s, id, accept).0)
  {
    hide Sound;
    if Sound(s) {
      SettleSound(s, id, accept);
    }
  }

  lemma ExpireKeeps(s: Tables, now: int)
    ensures Sound(s) ==> Sound(Expire(s, now))
  {
    hide Sound;
    if Sound(s) {
      BookRuns.ExpireSound(s, now);
    }
  }

  lemma PayKeeps(s: Tables, id: Id, payer: User, amount: Option<int>)
    ensures Sound(s) ==> Sound(PayBill(s, id, payer, amount).0)
  {
    hide Sound;
    if Sound(s) {
      PayBillSound(s, id, payer, amount);
    }
  }

  lemma CancelKeeps(s: Tables, id: Id, me: User)
    ensures Sound(s) ==> Sound(CancelBill(s, id, me).0)
  {
    hide Sound;
    if Sound(s) {
      CancelBillSound(s, id, me);
    }
  }

  lemma OpenKeeps(s: Tables, id: Id, bill: Bill)
    ensures Sound(s) && BookRuns.NewBill(bill) ==> Sound(OpenBill(s, id, bill).0)
  {
    hide Sound;
    if Sound(s) && BookRuns.NewBill(bill) {
      BookRuns.OpenBillSound(s, id, bill);
    }
  }

  class Store {
    var balances: map<User, int>
    var transfers: map<Id, Transfer>
    var bills: map<Id, Bill>
    ghost var topped: map<User, int>

    ghost function View(): Tables
      reads this
    {
      Tables(balances, transfers, bills, topped)
    }

    constructor (users: set<User>)
      ensures View() == BookRuns.Fresh(users)
      ensures balances == (map u | u in users :: 0) && transfers == map[] && bills == map[]
    {
      balances := map u | u in users :: 0;
      transfers, bills, topped := map[], map[], map[];
    }

    method TopUp(user: User, amount: int) returns (reply: Reply)
      modifies this`balances, this`topped
      ensures (View(), reply) == Books.TopUp(old(View()), user, amount)
      ensures old(Sound(View())) ==> Sound(View())
    {
      hide Sound;
      TopUpKeeps(View(), user, amount);
      if amount <= 0 {
        return BadAmount;
      }
      if amount > MAX_AMOUNT {
        return BadAmount;
      }
      match AddBalance(balances, user, amount) {
        case Err(MissingUser) => return Missing;
        case Err(Insufficient) => return TooPoor;
        case Ok(next) =>
          balances := next;
          topped := topped[user := (if user in topped then topped[user] else 0) + amount];
          return Done;
      }
    }

    method TransferCreate(id: Id, from: User, to: User, amount: int, expiredAt: int) returns (reply: Reply)
      modifies this`balances, this`transfers
      ensures (View(), reply) == Escrow(old(View()), id, from, to, amount, expiredAt)
      ensures old(Sound(View())) && amount > 0 && from != to ==> Sound(View())
    {
      hide Sound;
      EscrowKeeps(View(), id, from, to, amount, expiredAt);
      if id in transfers {
        return Duplicate;
      }
      match AddBalance(balances, from, -amount) {
        case Err(MissingUser) => return Missing;
        case Err(Insufficient) => return TooPoor;
        case Ok(tx) =>
          transfers := transfers[id := Transfer(from, to, amount, Pending, expiredAt)];
          balances := tx;
          return Done;
      }
    }

    method TransferCancelRefund(id: Id) returns (reply: Reply)
      modifies this`balances, this`transfers
      ensures (View(), reply) == CancelRefund(old(View()), id)
      ensures old(Sound(View())) ==> Sound(View())
    {
      hide Sound;
      CancelRefundKeeps(View(), id);
      if id !in transfers {
        return Missing;
      }
      var row := transfers[id];
      if row.state != Pending {
        return Closed;
      }
      match AddBalance(balances, row.from, row.amount) {
        case Err(_) => return Missing;
        case Ok(tx) =>
          transfers := transfers[id := row.(state := Refunded)];
          balances := tx;
          return Done;
      }
    }

    method TransferSend(id: Id, from: User, to: User, amount: int, now: int, allowed: bool, delivered: bool)
      returns (reply: Reply)
      modifies this`balances, this`transfers
      ensures (View(), reply) == Send(old(View()), id, from, to, amount, now, allowed, delivered)
      ensures old(Sound(View())) ==> Sound(View())
    {
      hide Sound;
      SendKeeps(View(), id, from, to, amount, now, allowed, delivered);
      if amount <= 0 {
        return BadAmount;
      }
      if amount > MAX_AMOUNT {
        return BadAmount;
      }
      if from == to {
        return ToSelf;
      }
      if to !in balances {
        return Missing;
      }
      if !allowed {
        return NotAllowed;
      }
      reply := TransferCreate(id, from, to, amount, now + DAY_MS);
      if reply != Done {
        return;
      }
      if !delivered {
        var _ := TransferCancelRefund(id);
        return Undelivered;
      }
    }

    method TransferSettle(id: Id, accept: bool) returns (reply: Reply)
      modifies this`balances, this`transfers
      ensures (View(), reply) == Settle(old(View()), id, accept)
      ensures old(Sound(View())) ==> Sound(View())
    {
      hide Sound;
      SettleKeeps(View(), id, accept);
      if id !in transfers {
        return Missing;
      }
      var row := transfers[id];
      if row.state != Pending {
        return Closed;
      }
      var next := if accept then Accepted else Rejected;
      var target := if accept then row.to else row.from;
      match AddBalance(balances, target, row.amount) {
        case Err(_) => return Missing;
        case Ok(tx) =>
          transfers := transfers[id := row.(state := next)];
          balances := tx;
          return Done;
      }
    }

    /** The read half of expiry, outside any transaction. */
    method ExpireRead(now: int) returns (ids: set<Id>)
      ensures ids == Due(View(), now)
      ensures forall id :: id in ids <==>
                id in transfers && transfers[id].state == Pending && transfers[id].expiredAt <= now
    {
      ids := set id | id in transfers && transfers[id].state == Pending && transfers[id].expiredAt <= now;
    }

    /** The commit half of expiry, on whatever rows the read half returned earlier. */
    method ExpireCommit(ids: set<Id>)
      requires Solvent(View()) && TransfersSound(View()) && ids <= transfers.Keys
      modifies this`balances, this`transfers
      ensures View() == RefundRows(old(View()), ids)
    {
      hide Sum, Total, Column, Rows, Solvent, TransfersSound, RefundRows;
      ghost var start := View();
      var todo := ids;
      var listed := transfers;
      var tx, rows := balances, transfers;
      RefundNone(start);
      assert ids - todo == {};
      while todo != {}
        invariant todo <= ids
        invariant start.(balances := tx, transfers := rows) == RefundRows(start, ids - todo)
      {
        var id :| id in todo;
        RefundReady(start, ids - todo, id);
        var row := listed[id];
        RefundStep(start, ids - todo, id);
        match AddBalance(tx, row.from, row.amount) {
          case Err(_) =>
            assert false;
          case Ok(next) =>
            tx := next;
        }
        rows := rows[id := row.(state := Refunded)];
        assert ids - todo + {id} == ids - (todo - {id});
        todo := todo - {id};
      }
      assert ids - {} == ids;
      balances, transfers := tx, rows;
    }

    /** Expiry with nothing happening between its two halves. */
    method TransferExpire(now: int)
      requires Solvent(View()) && TransfersSound(View())
      modifies this`balances, this`transfers
      ensures View() == Expire(old(View()), now)
      ensures old(Sound(View())) ==> Sound(View())
    {
      hide Sound;
      ExpireKeeps(View(), now);
      var ids := ExpireRead(now);
      ExpireCommit(ids);
    }

    method TransferAnswer(id: Id, me: User, accept: bool, now: int) returns (reply: Reply)
      requires Solvent(View()) && TransfersSound(View())
      modifies this`balances, this`transfers
      ensures (View(), reply) == Answer(old(View()), id, me, accept, now)
      ensures old(Sound(View())) ==> Sound(View())
    {
      hide Sound;
      ExpireKeeps(View(), now);
      SettleKeeps(View(), id, accept);
      hide Solvent, TransfersSound, RefundRows, Settle;
      if id !in transfers {
        return Missing;
      }
      var row := transfers[id];
      if row.to != me {
        return NotYours;
      }
      if row.state != Pending {
        return Closed;
      }
      if row.expiredAt <= now {
        TransferExpire(now);
        return Expired;
      }
      reply := TransferSettle(id, accept);
    }

    /** Accepted exactly when the amount, the participants and the split pass their checks. */
    method BillCreate(id: Id, me: User, total: int, custom: bool, isGroup: bool, memberIds: seq<User>,
                      raw: seq<User>, splits: map<User, int>) returns (reply: Reply)
      requires Distinct(memberIds)
      modifies this`bills
      ensures reply == Done <==>
                && 0 < total <= 200_000_000
                && 1 <= |Candidates(me, memberIds, raw)| <= 200
                && (isGroup ==> forall u :: u in Candidates(me, memberIds, raw) ==> u in memberIds)
                && (if custom then SplitAccepted(Candidates(me, memberIds, raw), splits, total)
                    else total >= |Candidates(me, memberIds, raw)|)
                && id !in old(bills)
      ensures reply != Done ==> bills == old(bills)
      ensures reply == Done ==>
                var candidates := Candidates(me, memberIds, raw);
                var split := if custom then Custom(map u | u in candidates && u in splits :: splits[u]) else Equal;
                && bills == old(bills)[id := Bill(me, total, candidates, split, 0, Open, map[])]
                && View() == OpenBill(old(View()), id, bills[id]).0 && BookRuns.NewBill(bills[id])
      ensures reply == BadAmount <==> !(0 < total <= 200_000_000)
      ensures old(Sound(View())) ==> Sound(View())
    {
      hide Sound, Sum, SplitAccepted, Chosen, BookRuns.NewBill;
      ghost var before := View();
      if total <= 0 {
        return BadAmount;
      }
      if total > MAX_AMOUNT {
        return BadAmount;
      }
      var candidates := CollectCandidates(me, memberIds, raw);
      CandidatesClean(me, memberIds, raw);
      SplitMeaning(candidates, splits, total);
      if candidates == [] {
        return BadSplit;
      }
      if |candidates| > MAX_MEMBERS {
        return BadSplit;
      }
      if isGroup && exists u :: u in candidates && u !in memberIds {
        return NotParticipant;
      }
      var split := Equal;
      if custom {
        var collected := CollectSplits(candidates, splits, total);
        if collected.Err? {
          return collected.error;
        }
        split := Custom(collected.value);
      } else if total < |candidates| {
        return BadSplit;
      }
      if id in bills {
        return Duplicate;
      }
      var bill := Bill(me, total, candidates, split, 0, Open, map[]);
      CreatedBillIsNew(bill, me, memberIds, raw, splits);
      OpenKeeps(before, id, bill);
      bills := bills[id := bill];
      return Done;
    }

    method BillPay(id: Id, payer: User, offered: Option<int>) returns (reply: Reply)
      modifies this`balances, this`bills
      ensures (View(), reply) == PayBill(old(View()), id, payer, offered)
      ensures old(Sound(View())) ==> Sound(View())
    {
      hide Sound;
      PayKeeps(View(), id, payer, offered);
      if id !in bills {
        return Missing;
      }
      var bill := bills[id];
      var share := Share(bill, payer);
      if share.None? {
        return NotParticipant;
      }
      var amount := if offered.None? then share.value else offered.value;
      if bill.status != Open {
        return Closed;
      }
      if payer in bill.payments {
        return Duplicate;
      }
      if share != Some(amount) {
        return WrongAmount;
      }
      var tx := balances;
      match AddBalance(tx, payer, -amount) {
        case Err(MissingUser) => return Missing;
        case Err(Insufficient) => return TooPoor;
        case Ok(next) => tx := next;
      }
      match AddBalance(tx, bill.creator, amount) {
        case Err(_) => return Missing;
        case Ok(next) => tx := next;
      }
      var settled := bill.settled + amount;
      var status := if settled >= bill.total then Settled else Open;
      bills := bills[id := bill.(settled := settled, status := status, payments := bill.payments[payer := amount])];
      balances := tx;
      return Done;
    }

    method BillCancel(id: Id, me: User) returns (reply: Reply)
      modifies this`bills
      ensures (View(), reply) == CancelBill(old(View()), id, me)
      ensures old(Sound(View())) ==> Sound(View())
    {
      hide Sound;
      CancelKeeps(View(), id, me);
      if id !in bills {
        return Missing;
      }
      if bills[id].creator != me {
        return NotYours;
      }
      if bills[id].status != Open {
        return Closed;
      }
      bills := bills[id := bills[id].(status := Cancelled)];
      return Done;
    }
  }

  /** The row about to be refunded can be credited. */
  lemma RefundReady(s: Tables, done: set<Id>, id: Id)
    requires Solvent(s) && TransfersSound(s) && id in s.transfers && done <= s.transfers.Keys
    ensures s.transfers[id].from in s.balances && s.transfers[id].amount > 0
    ensures
      var mid := RefundRows(s, done);
      s.transfers[id].from in mid.balances && mid.balances[s.transfers[id].from] >= 0
  {
    hide Sum, Total, Solvent;
    var from := s.transfers[id].from;
    forall k | k in Rows(s, done)
      ensures Rows(s, done)[k].amount > 0
    {
    }
    assert TransferSound(s.balances, s.transfers[id]);
    OwedNonNegative(Rows(s, done), from);
    assert s.balances[from] >= 0 by {
      SolventAt(s, from);
    }
  }

  lemma SolventAt(s: Tables, user: User)
    requires Solvent(s) && user in s.balances
    ensures s.balances[user] >= 0
  {
  }

  lemma OwedNonNegative(rows: map<Id, Transfer>, user: User)
    requires forall k :: k in rows ==> rows[k].amount > 0
    ensures Total(rows, OwedTo(user)) >= 0
  {
    SumNonNegative(Column(rows, OwedTo(user)));
  }
}
