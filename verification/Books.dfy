/**
 The money tables as one value, the effect of every money handler on them, and the
 accounting laws each effect keeps. `topped` is a history variable: what each user has
 ever paid in. Every handler is one atomic step.
 */
module Books {
  import opened Wrappers
  import opened Sums
  import opened Bills

  const MAX_AMOUNT: int := 200_000_000
  const DAY_MS: int := 24 * 60 * 60 * 1000

  type Id = string

  datatype TransferState = Pending | Accepted | Rejected | Refunded
  datatype Transfer = Transfer(from: User, to: User, amount: int, state: TransferState, expiredAt: int)

  datatype Tables = Tables(
    balances: map<User, int>, transfers: map<Id, Transfer>, bills: map<Id, Bill>, topped: map<User, int>)

  datatype WalletError = MissingUser | Insufficient

  datatype Reply =
    | Done | BadAmount | NotAllowed | ToSelf | Missing | TooPoor | Duplicate | NotYours
    | Closed | Expired | Undelivered | WrongAmount | NotParticipant | BadSplit

  /** Adds `delta` to one balance inside a transaction; never below zero. */
  function AddBalance(balances: map<User, int>, user: User, delta: int): (r: Result<map<User, int>, WalletError>)
    ensures r.Ok? <==> user in balances && balances[user] + delta >= 0
    ensures r.Ok? ==> r.value == balances[user := balances[user] + delta]
  {
    if user !in balances then Err(MissingUser)
    else if balances[user] + delta < 0 then Err(Insufficient)
    else Ok(balances[user := balances[user] + delta])
  }

  // ---- the laws ----

  function Held(t: Transfer): int {
    if t.state == Pending then t.amount else 0
  }

  ghost function Holding(): Transfer -> int {
    t => Held(t)
  }

  /** Money in the system: all balances and everything in escrow. */
  ghost function Worth(s: Tables): int {
    Sum(s.balances) + Total(s.transfers, Holding())
  }

  /** What one transfer row has done to one user's balance so far. */
  function Flow(t: Transfer, user: User): int {
    (if t.to == user && t.state == Accepted then t.amount else 0)
    - (if t.from == user && (t.state == Pending || t.state == Accepted) then t.amount else 0)
  }

  ghost function FlowTo(user: User): Transfer -> int {
    t => Flow(t, user)
  }

  ghost function BillFlow(b: Bill, user: User): int {
    (if b.creator == user then Sum(b.payments) else 0)
    - (if user in b.payments then b.payments[user] else 0)
  }

  ghost function BillFlowTo(user: User): Bill -> int {
    b => BillFlow(b, user)
  }

  /** The balance the rows say a user must have. */
  ghost function Audit(s: Tables, user: User): int {
    (if user in s.topped then s.topped[user] else 0)
    + Total(s.transfers, FlowTo(user)) + Total(s.bills, BillFlowTo(user))
  }

  ghost predicate Solvent(s: Tables) {
    forall u :: u in s.balances ==> s.balances[u] >= 0
  }

  ghost predicate Audited(s: Tables) {
    forall u :: u in s.balances ==> s.balances[u] == Audit(s, u)
  }

  ghost predicate TransferSound(balances: map<User, int>, t: Transfer) {
    t.amount > 0 && t.from in balances && t.from != t.to
  }

  ghost predicate TransfersSound(s: Tables) {
    forall id :: id in s.transfers ==> TransferSound(s.balances, s.transfers[id])
  }

  ghost predicate BillsSound(s: Tables) {
    forall id :: id in s.bills ==> BillSound(s.bills[id])
  }

  /** The accounting laws: no debt, every balance explained by the rows, no money made or lost. */
  ghost predicate Sound(s: Tables) {
    Solvent(s) && Audited(s) && TransfersSound(s) && BillsSound(s) && Worth(s) == Sum(s.topped)
  }

  // ---- one balance and one transfer row change together ----

  function MoveMoney(s: Tables, user: User, delta: int, id: Id, row: Transfer): Tables
    requires user in s.balances
  {
    s.(balances := s.balances[user := s.balances[user] + delta], transfers := s.transfers[id := row])
  }

  /** The transfer life cycle: escrow from the sender, then one exit that credits one party. */
  predicate Opens(s: Tables, user: User, delta: int, id: Id, row: Transfer) {
    && id !in s.transfers && row.state == Pending
    && row.amount > 0 && row.from != row.to
    && user == row.from && delta == -row.amount
  }

  predicate Closes(s: Tables, user: User, delta: int, id: Id, row: Transfer) {
    && id in s.transfers && s.transfers[id].state == Pending && row.state != Pending
    && row == s.transfers[id].(state := row.state)
    && user == (if row.state == Accepted then row.to else row.from) && delta == row.amount
  }

  lemma MoveMoneyWorth(s: Tables, user: User, delta: int, id: Id, row: Transfer)
    requires user in s.balances
    ensures Worth(MoveMoney(s, user, delta, id, row)) ==
            Worth(s) + delta + Held(row) - (if id in s.transfers then Held(s.transfers[id]) else 0)
  {
    SumUpdate(s.balances, user, s.balances[user] + delta);
    TotalUpdate(s.transfers, Holding(), id, row);
  }

  lemma MoveMoneyAudit(s: Tables, user: User, delta: int, id: Id, row: Transfer, u: User)
    requires user in s.balances
    requires Opens(s, user, delta, id, row) || (Closes(s, user, delta, id, row) && row.from != row.to)
    ensures Audit(MoveMoney(s, user, delta, id, row), u) == Audit(s, u) + if u == user then delta else 0
  {
    TotalUpdate(s.transfers, FlowTo(u), id, row);
  }

  lemma MoveMoneyAudited(s: Tables, user: User, delta: int, id: Id, row: Transfer)
    requires Audited(s) && user in s.balances
    requires Opens(s, user, delta, id, row) || (Closes(s, user, delta, id, row) && row.from != row.to)
    ensures Audited(MoveMoney(s, user, delta, id, row))
  {
    forall u | u in s.balances
      ensures MoveMoney(s, user, delta, id, row).balances[u] == Audit(MoveMoney(s, user, delta, id, row), u)
    {
      MoveMoneyAudit(s, user, delta, id, row, u);
    }
  }

  /** Both kinds of step keep every law. */
  lemma MoveMoneySound(s: Tables, user: User, delta: int, id: Id, row: Transfer)
    requires Sound(s) && user in s.balances && s.balances[user] + delta >= 0
    requires Opens(s, user, delta, id, row) || Closes(s, user, delta, id, row)
    ensures Sound(MoveMoney(s, user, delta, id, row))
  {
    hide Sum, Total, Column, Audit;
    assert TransferSound(s.balances, row) by {
      assert id in s.transfers ==> TransferSound(s.balances, s.transfers[id]);
    }
    MoveMoneyWorth(s, user, delta, id, row);
    MoveMoneyAudited(s, user, delta, id, row);
  }

  // ---- handlers ----

  function TopUp(s: Tables, user: User, amount: int): (Tables, Reply) {
    if amount <= 0 || amount > MAX_AMOUNT then (s, BadAmount)
    else match AddBalance(s.balances, user, amount)
      case Err(MissingUser) => (s, Missing)
      case Err(Insufficient) => (s, TooPoor)
      case Ok(balances) =>
        var before := if user in s.topped then s.topped[user] else 0;
        (s.(balances := balances, topped := s.topped[user := before + amount]), Done)
  }

  lemma TopUpSound(s: Tables, user: User, amount: int)
    requires Sound(s)
    ensures Sound(TopUp(s, user, amount).0)
  {
    hide Sum, Total, Column;
    var s' := TopUp(s, user, amount).0;
    if TopUp(s, user, amount).1 == Done {
      SumUpdate(s.balances, user, s.balances[user] + amount);
      SumUpdate(s.topped, user, s'.topped[user]);
    }
  }

  /** The facts about one stored transfer that the laws carry. */
  lemma SoundRow(s: Tables, id: Id)
    requires Sound(s) && id in s.transfers
    ensures TransferSound(s.balances, s.transfers[id]) && s.balances[s.transfers[id].from] >= 0
    ensures s.transfers[id].to in s.balances ==> s.balances[s.transfers[id].to] >= 0
  {
  }

  /** Puts a pending row's amount back to its sender and closes the row. */
  function CancelRefund(s: Tables, id: Id): (Tables, Reply) {
    if id !in s.transfers then (s, Missing)
    else if s.transfers[id].state != Pending then (s, Closed)
    else match AddBalance(s.balances, s.transfers[id].from, s.transfers[id].amount)
      case Err(_) => (s, Missing)
      case Ok(balances) =>
        (s.(balances := balances, transfers := s.transfers[id := s.transfers[id].(state := Refunded)]), Done)
  }

  lemma CancelRefundSound(s: Tables, id: Id)
    requires Sound(s)
    ensures Sound(CancelRefund(s, id).0)
    ensures id in s.transfers && s.transfers[id].state == Pending ==> CancelRefund(s, id).1 == Done
  {
    hide Sum, Total, Column, Audit, Audited, Worth, BillsSound, Solvent, TransfersSound;
    if id in s.transfers && s.transfers[id].state == Pending {
      var t := s.transfers[id];
      SoundRow(s, id);
      MoveMoneySound(s, t.from, t.amount, id, t.(state := Refunded));
      assert CancelRefund(s, id).0 == MoveMoney(s, t.from, t.amount, id, t.(state := Refunded));
    }
  }

  /** The escrow: the amount leaves the sender and a pending row appears. */
  function Escrow(s: Tables, id: Id, from: User, to: User, amount: int, expiredAt: int): (Tables, Reply) {
    if id in s.transfers then (s, Duplicate)
    else match AddBalance(s.balances, from, -amount)
      case Err(MissingUser) => (s, Missing)
      case Err(Insufficient) => (s, TooPoor)
      case Ok(balances) =>
        (s.(balances := balances, transfers := s.transfers[id := Transfer(from, to, amount, Pending, expiredAt)]), Done)
  }

  lemma EscrowSound(s: Tables, id: Id, from: User, to: User, amount: int, expiredAt: int)
    requires Sound(s) && amount > 0 && from != to
    ensures Sound(Escrow(s, id, from, to, amount, expiredAt).0)
  {
    hide Sum, Total, Column, Audit, Audited, Worth, BillsSound, Solvent, TransfersSound;
    if Escrow(s, id, from, to, amount, expiredAt).1 == Done {
      var row := Transfer(from, to, amount, Pending, expiredAt);
      MoveMoneySound(s, from, -amount, id, row);
      assert Escrow(s, id, from, to, amount, expiredAt).0 == MoveMoney(s, from, -amount, id, row);
    }
  }

  /**
   `transfer.send`. `allowed` is the outcome of the session and friendship checks,
   `delivered` of posting the message; an undelivered transfer is refunded at once.
   */
  function Send(s: Tables, id: Id, from: User, to: User, amount: int, now: int, allowed: bool, delivered: bool)
    : (Tables, Reply)
  {
    if amount <= 0 || amount > MAX_AMOUNT then (s, BadAmount)
    else if from == to then (s, ToSelf)
    else if to !in s.balances then (s, Missing)
    else if !allowed then (s, NotAllowed)
    else
      var (held, reply) := Escrow(s, id, from, to, amount, now + DAY_MS);
      if reply != Done then (s, reply)
      else if delivered then (held, Done)
      else (CancelRefund(held, id).0, Undelivered)
  }

  /** A refused or undelivered transfer leaves every balance as it was. */
  lemma SendRefusedKeepsBalances(
    s: Tables, id: Id, from: User, to: User, amount: int, now: int, allowed: bool, delivered: bool)
    ensures var (s', reply) := Send(s, id, from, to, amount, now, allowed, delivered);
            reply != Done ==> s'.balances == s.balances
  {
    var (held, reply) := Escrow(s, id, from, to, amount, now + DAY_MS);
    if reply == Done {
      var back := held.balances[from := held.balances[from] + amount];
      assert back == s.balances;
    }
  }

  lemma SendSound(
    s: Tables, id: Id, from: User, to: User, amount: int, now: int, allowed: bool, delivered: bool)
    requires Sound(s)
    ensures Sound(Send(s, id, from, to, amount, now, allowed, delivered).0)
  {
    if 0 < amount <= MAX_AMOUNT && from != to && to in s.balances && allowed {
      EscrowSound(s, id, from, to, amount, now + DAY_MS);
      CancelRefundSound(Escrow(s, id, from, to, amount, now + DAY_MS).0, id);
    }
  }

  /** `transfer.accept` and `transfer.reject` after the expiry check. */
  function Settle(s: Tables, id: Id, accept: bool): (Tables, Reply) {
    if id !in s.transfers then (s, Missing)
    else
      var row := s.transfers[id];
      if row.state != Pending then (s, Closed)
      else match AddBalance(s.balances, if accept then row.to else row.from, row.amount)
        case Err(_) => (s, Missing)
        case Ok(balances) =>
          (s.(balances := balances,
              transfers := s.transfers[id := row.(state := if accept then Accepted else Rejected)]), Done)
  }

  lemma SettleSound(s: Tables, id: Id, accept: bool)
    requires Sound(s)
    ensures Sound(Settle(s, id, accept).0)
  {
    hide Sum, Total, Column, Audit, Audited, Worth, BillsSound, Solvent, TransfersSound;
    if Settle(s, id, accept).1 == Done {
      var t := s.transfers[id];
      var user, row := if accept then t.to else t.from, t.(state := if accept then Accepted else Rejected);
      SoundRow(s, id);
      MoveMoneySound(s, user, t.amount, id, row);
      assert Settle(s, id, accept).0 == MoveMoney(s, user, t.amount, id, row);
    }
  }

  // ---- expiry ----

  ghost function OwedTo(user: User): Transfer -> int {
    (t: Transfer) => if t.from == user then t.amount else 0
  }

  ghost function Rows(s: Tables, ids: set<Id>): map<Id, Transfer> {
    map id | id in s.transfers && id in ids :: s.transfers[id]
  }

  /**
   The commit half of expiry: every listed row is credited to its sender and overwritten
   with `Refunded`, without looking at its current state again.
   */
  ghost function RefundRows(s: Tables, ids: set<Id>): Tables {
    s.(balances := map u | u in s.balances :: s.balances[u] + Total(Rows(s, ids), OwedTo(u)),
       transfers := map id | id in s.transfers ::
         if id in ids then s.transfers[id].(state := Refunded) else s.transfers[id])
  }

  /** The rows the SELECT half returns. */
  ghost function Due(s: Tables, now: int): set<Id> {
    set id | id in s.transfers && s.transfers[id].state == Pending && s.transfers[id].expiredAt <= now
  }

  lemma RefundNone(s: Tables)
    ensures RefundRows(s, {}) == s
  {
    assert forall u :: Column(Rows(s, {}), OwedTo(u)) == map[];
    assert RefundRows(s, {}).balances == s.balances;
    assert RefundRows(s, {}).transfers == s.transfers;
  }

  lemma RefundStepBalance(s: Tables, ids: set<Id>, id: Id, u: User)
    requires id in s.transfers && id !in ids
    ensures Total(Rows(s, ids + {id}), OwedTo(u)) ==
            Total(Rows(s, ids), OwedTo(u)) + if s.transfers[id].from == u then s.transfers[id].amount else 0
  {
    hide Sum, Total, Column;
    assert Rows(s, ids + {id}) == Rows(s, ids)[id := s.transfers[id]];
    TotalUpdate(Rows(s, ids), OwedTo(u), id, s.transfers[id]);
  }

  lemma RefundStepBalances(s: Tables, ids: set<Id>, id: Id)
    requires id in s.transfers && id !in ids && s.transfers[id].from in s.balances
    ensures
      var t, mid := s.transfers[id], RefundRows(s, ids);
      RefundRows(s, ids + {id}).balances == mid.balances[t.from := mid.balances[t.from] + t.amount]
  {
    hide Sum, Total, Column, Rows;
    var t, mid, end := s.transfers[id], RefundRows(s, ids), RefundRows(s, ids + {id});
    forall u | u in s.balances
      ensures end.balances[u] == mid.balances[u] + if t.from == u then t.amount else 0
    {
      RefundStepBalance(s, ids, id, u);
    }
  }

  /** The loop body of the commit half. */
  lemma RefundStep(s: Tables, ids: set<Id>, id: Id)
    requires id in s.transfers && id !in ids && s.transfers[id].from in s.balances
    ensures
      var t, mid := s.transfers[id], RefundRows(s, ids);
      mid.transfers[id] == t && RefundRows(s, ids + {id}) == MoveMoney(mid, t.from, t.amount, id, t.(state := Refunded))
  {
    hide Sum, Total, Column, Rows, OwedTo;
    RefundStepBalances(s, ids, id);
    assert RefundRows(s, ids + {id}).transfers ==
           RefundRows(s, ids).transfers[id := s.transfers[id].(state := Refunded)];
  }

  /** Rows of the list that are no longer pending, with their amounts. */
  ghost function Stale(): Transfer -> int {
    (t: Transfer) => if t.state == Pending then 0 else t.amount
  }

  lemma RefundStepStale(s: Tables, ids: set<Id>, id: Id)
    requires id in s.transfers && id !in ids
    ensures Total(Rows(s, ids + {id}), Stale()) == Total(Rows(s, ids), Stale()) + Stale()(s.transfers[id])
  {
    assert Rows(s, ids + {id}) == Rows(s, ids)[id := s.transfers[id]];
    TotalUpdate(Rows(s, ids), Stale(), id, s.transfers[id]);
  }

  lemma RefundWorthStep(s: Tables, ids: set<Id>, id: Id)
    requires id in s.transfers && id !in ids && s.transfers[id].from in s.balances
    ensures Worth(RefundRows(s, ids + {id})) == Worth(RefundRows(s, ids)) + Stale()(s.transfers[id])
  {
    hide Sum, Total, Column, Rows, Worth;
    var t, mid := s.transfers[id], RefundRows(s, ids);
    RefundStep(s, ids, id);
    MoveMoneyWorth(mid, t.from, t.amount, id, t.(state := Refunded));
  }

  /** What the commit half does to the money in the system, on any list of rows. */
  lemma {:induction false} RefundWorth(s: Tables, ids: set<Id>)
    requires ids <= s.transfers.Keys
    requires forall id :: id in ids ==> s.transfers[id].from in s.balances
    ensures Worth(RefundRows(s, ids)) == Worth(s) + Total(Rows(s, ids), Stale())
    decreases |ids|
  {
    hide Sum, Total, Rows, Worth, RefundRows;
    if id :| id in ids {
      var rest := ids - {id};
      assert ids == rest + {id};
      RefundWorth(s, rest);
      RefundWorthStep(s, rest, id);
      RefundStepStale(s, rest, id);
    } else {
      RefundNone(s);
      NoRows(s);
    }
  }

  lemma NoRows(s: Tables)
    ensures Total(Rows(s, {}), Stale()) == 0
  {
    assert Column(Rows(s, {}), Stale()) == map[];
  }

  /**
   The SELECT runs before the transaction. When its rows may have been settled in between,
   the commit creates money out of nothing unless every one of them is still pending.
   */
  lemma StaleRefundExact(s: Tables, ids: set<Id>)
    requires TransfersSound(s) && ids <= s.transfers.Keys
    ensures Worth(RefundRows(s, ids)) == Worth(s) <==> forall id :: id in ids ==> s.transfers[id].state == Pending
  {
    forall id | id in ids
      ensures TransferSound(s.balances, s.transfers[id])
    {
    }
    RefundWorth(s, ids);
    StaleTotal(s, ids);
  }

  lemma StaleTotal(s: Tables, ids: set<Id>)
    requires ids <= s.transfers.Keys && forall id :: id in ids ==> s.transfers[id].amount > 0
    ensures Total(Rows(s, ids), Stale()) == 0 <==> forall id :: id in ids ==> s.transfers[id].state == Pending
  {
    var column := Column(Rows(s, ids), Stale());
    if id :| id in ids && s.transfers[id].state != Pending {
      SumPick(column, id);
      SumNonNegative(column - {id});
    } else {
      SumConstant(column, 0);
    }
  }

  /**
   Two expiry runs that both read before either commits: the second one adds the full
   amount of the row again, for every row and every table.
   */
  lemma DoubleRefund(s: Tables, id: Id)
    requires Sound(s) && id in s.transfers && s.transfers[id].state == Pending
    ensures
      var once := RefundRows(s, {id});
      && Worth(once) == Worth(s)
      && Worth(RefundRows(once, {id})) == Worth(s) + s.transfers[id].amount
  {
    hide Sum, Total, Column;
    var t, once := s.transfers[id], RefundRows(s, {id});
    SoundRow(s, id);
    RefundWorth(s, {id});
    OneRow(s, id);
    RefundWorth(once, {id});
    OneRow(once, id);
  }

  lemma OneRow(s: Tables, id: Id)
    requires id in s.transfers
    ensures Total(Rows(s, {id}), Stale()) == Stale()(s.transfers[id])
  {
    assert {} + {id} == {id};
    RefundStepStale(s, {}, id);
    NoRows(s);
  }

  /** Refunding rows that are all still pending keeps every law. */
  lemma {:induction false} RefundSound(s: Tables, ids: set<Id>)
    requires Sound(s) && ids <= s.transfers.Keys
    requires forall id :: id in ids ==> s.transfers[id].state == Pending
    ensures Sound(RefundRows(s, ids))
    decreases |ids|
  {
    hide Sound, RefundRows;
    if id :| id in ids {
      RefundSound(s, ids - {id});
      assert ids == (ids - {id}) + {id};
      RefundOneMore(s, ids - {id}, id);
    } else {
      RefundNone(s);
    }
  }

  lemma RefundOneMore(s: Tables, ids: set<Id>, id: Id)
    requires Sound(s) && Sound(RefundRows(s, ids))
    requires id in s.transfers && id !in ids && s.transfers[id].state == Pending
    ensures Sound(RefundRows(s, ids + {id}))
  {
    hide Sum, Total, Column, Rows, Audit, Audited, Solvent, BillsSound, TransfersSound, Worth;
    var t, mid := s.transfers[id], RefundRows(s, ids);
    SoundRow(s, id);
    RefundStep(s, ids, id);
    SoundRow(mid, id);
    MoveMoneySound(mid, t.from, t.amount, id, t.(state := Refunded));
  }

  /** `transfer.expire`, read and commit in one step. */
  ghost function Expire(s: Tables, now: int): Tables {
    RefundRows(s, Due(s, now))
  }

  /** `transfer.accept` (`accept`) and `transfer.reject`; a late answer triggers expiry instead. */
  ghost function Answer(s: Tables, id: Id, me: User, accept: bool, now: int): (Tables, Reply) {
    if id !in s.transfers then (s, Missing)
    else if s.transfers[id].to != me then (s, NotYours)
    else if s.transfers[id].state != Pending then (s, Closed)
    else if s.transfers[id].expiredAt <= now then (Expire(s, now), Expired)
    else Settle(s, id, accept)
  }

  // ---- bills ----

  /** `aa.pay`; without an explicit amount the payer's share is taken. */
  function PayBill(s: Tables, id: Id, payer: User, amount: Option<int>): (Tables, Reply) {
    if id !in s.bills then (s, Missing)
    else
      var bill := s.bills[id];
      var share := Share(bill, payer);
      if share.None? then (s, NotParticipant)
      else
        var due := match amount case None => share.value case Some(a) => a;
        if bill.status != Open then (s, Closed)
        else if payer in bill.payments then (s, Duplicate)
        else if share != Some(due) then (s, WrongAmount)
        else match AddBalance(s.balances, payer, -due)
          case Err(MissingUser) => (s, Missing)
          case Err(Insufficient) => (s, TooPoor)
          case Ok(taken) =>
            match AddBalance(taken, bill.creator, due)
            case Err(_) => (s, Missing)
            case Ok(balances) =>
              (s.(balances := balances, bills := s.bills[id := Paid(bill, payer, due)]), Done)
  }

  lemma PayBillFlow(bill: Bill, payer: User, due: int, u: User)
    requires payer !in bill.payments && payer != bill.creator
    ensures BillFlow(Paid(bill, payer, due), u) ==
            BillFlow(bill, u) + (if u == bill.creator then due else 0) - (if u == payer then due else 0)
  {
    SumUpdate(bill.payments, payer, due);
  }

  lemma PayBillAudited(s: Tables, id: Id, payer: User, amount: Option<int>)
    requires Audited(s) && BillsSound(s) && PayBill(s, id, payer, amount).1 == Done
    ensures Audited(PayBill(s, id, payer, amount).0)
  {
    hide Sum, Total, Column;
    var bill := s.bills[id];
    assert BillSound(bill);
    var due := Share(bill, payer).value;
    var s' := PayBill(s, id, payer, amount).0;
    forall u | u in s'.balances
      ensures s'.balances[u] == Audit(s', u)
    {
      PayBillFlow(bill, payer, due, u);
      TotalUpdate(s.bills, BillFlowTo(u), id, Paid(bill, payer, due));
    }
  }

  lemma PayBillWorth(s: Tables, id: Id, payer: User, amount: Option<int>)
    requires PayBill(s, id, payer, amount).1 == Done
    ensures Worth(PayBill(s, id, payer, amount).0) == Worth(s)
  {
    var bill := s.bills[id];
    var due := Share(bill, payer).value;
    var taken := s.balances[payer := s.balances[payer] - due];
    SumUpdate(s.balances, payer, s.balances[payer] - due);
    SumUpdate(taken, bill.creator, taken[bill.creator] + due);
  }

  lemma PayBillRows(s: Tables, id: Id, payer: User, amount: Option<int>)
    requires TransfersSound(s) && BillsSound(s) && PayBill(s, id, payer, amount).1 == Done
    ensures TransfersSound(PayBill(s, id, payer, amount).0) && BillsSound(PayBill(s, id, payer, amount).0)
  {
    var s' := PayBill(s, id, payer, amount).0;
    PaidSound(s.bills[id], payer, Share(s.bills[id], payer).value);
    forall k | k in s'.transfers
      ensures TransferSound(s'.balances, s'.transfers[k])
    {
      assert TransferSound(s.balances, s.transfers[k]);
    }
  }

  lemma PayBillSound(s: Tables, id: Id, payer: User, amount: Option<int>)
    requires Sound(s)
    ensures Sound(PayBill(s, id, payer, amount).0)
  {
    hide Sum, Total, Column;
    if PayBill(s, id, payer, amount).1 == Done {
      PayBillAudited(s, id, payer, amount);
      PayBillWorth(s, id, payer, amount);
      PayBillRows(s, id, payer, amount);
      assert Solvent(PayBill(s, id, payer, amount).0);
    }
  }

  /** `aa.cancel`: only the creator, only while open. Payments already made stay made. */
  function CancelBill(s: Tables, id: Id, me: User): (Tables, Reply) {
    if id !in s.bills then (s, Missing)
    else if s.bills[id].creator != me then (s, NotYours)
    else if s.bills[id].status != Open then (s, Closed)
    else (s.(bills := s.bills[id := s.bills[id].(status := Cancelled)]), Done)
  }

  lemma CancelBillSound(s: Tables, id: Id, me: User)
    requires Sound(s)
    ensures Sound(CancelBill(s, id, me).0)
  {
    var s' := CancelBill(s, id, me).0;
    if s' != s {
      PutBillSound(s, id, s'.bills[id]);
    }
  }

  lemma PutBillAudited(s: Tables, id: Id, bill: Bill)
    requires Audited(s)
    requires forall u :: BillFlow(bill, u) == if id in s.bills then BillFlow(s.bills[id], u) else 0
    ensures Audited(s.(bills := s.bills[id := bill]))
  {
    var s' := s.(bills := s.bills[id := bill]);
    forall u | u in s'.balances
      ensures s'.balances[u] == Audit(s', u)
    {
      TotalUpdate(s.bills, BillFlowTo(u), id, bill);
    }
  }

  /** Storing a bill that moves no money. */
  lemma PutBillSound(s: Tables, id: Id, bill: Bill)
    requires Sound(s) && BillSound(bill)
    requires if id in s.bills then bill.creator == s.bills[id].creator && bill.payments == s.bills[id].payments
             else bill.payments == map[]
    ensures Sound(s.(bills := s.bills[id := bill]))
  {
    var s' := s.(bills := s.bills[id := bill]);
    PutBillAudited(s, id, bill);
    assert TransfersSound(s');
    assert BillsSound(s');
  }

  /** `aa.create` once the participants and splits have passed their checks. */
  function OpenBill(s: Tables, id: Id, bill: Bill): (Tables, Reply) {
    if id in s.bills then (s, Duplicate) else (s.(bills := s.bills[id := bill]), Done)
  }
}
