/** Every sequence of money handlers, started from tables that obey the accounting laws. */
module BookRuns {
  import opened Wrappers
  import opened Sums
  import opened Bills
  import opened Books

  datatype Op =
    | TopUpOp(user: User, amount: int)
    | SendOp(id: Id, from: User, to: User, amount: int, now: int, allowed: bool, delivered: bool)
    | AnswerOp(id: Id, me: User, accept: bool, now: int)
    | ExpireOp(now: int)
    | OpenOp(id: Id, bill: Bill)
    | PayOp(id: Id, payer: User, offered: Option<int>)
    | CancelOp(id: Id, me: User)

  /** A bill as creation stores it. */
  ghost predicate NewBill(bill: Bill) {
    FairSplit(bill) && bill.payments == map[] && bill.settled == 0 && bill.status == Open
  }

  ghost function Apply(s: Tables, op: Op): Tables {
    match op
    case TopUpOp(user, amount) => TopUp(s, user, amount).0
    case SendOp(id, from, to, amount, now, allowed, delivered) =>
      Send(s, id, from, to, amount, now, allowed, delivered).0
    case AnswerOp(id, me, accept, now) => Answer(s, id, me, accept, now).0
    case ExpireOp(now) => Expire(s, now)
    case OpenOp(id, bill) => if NewBill(bill) then OpenBill(s, id, bill).0 else s
    case PayOp(id, payer, amount) => PayBill(s, id, payer, amount).0
    case CancelOp(id, me) => CancelBill(s, id, me).0
  }

  ghost function Run(s: Tables, ops: seq<Op>): Tables
    decreases |ops|
  {
    if ops == [] then s else Run(Apply(s, ops[0]), ops[1..])
  }

  /** Money that entered the system during a run. */
  ghost function Deposited(s: Tables, ops: seq<Op>): int
    decreases |ops|
  {
    if ops == [] then 0
    else
      (if ops[0].TopUpOp? && TopUp(s, ops[0].user, ops[0].amount).1 == Done then ops[0].amount else 0)
      + Deposited(Apply(s, ops[0]), ops[1..])
  }

  lemma ExpireSound(s: Tables, now: int)
    requires Sound(s)
    ensures Sound(Expire(s, now))
  {
    hide Sound, RefundRows;
    RefundSound(s, Due(s, now));
  }

  lemma NewBillSound(bill: Bill)
    requires NewBill(bill)
    ensures BillSound(bill)
  {
  }

  lemma OpenBillSound(s: Tables, id: Id, bill: Bill)
    requires Sound(s) && NewBill(bill)
    ensures Sound(OpenBill(s, id, bill).0)
  {
    hide Sound, FairSplit;
    NewBillSound(bill);
    if id !in s.bills {
      PutBillSound(s, id, bill);
    }
  }

  /** Every handler keeps the laws. */
  lemma ApplySound(s: Tables, op: Op)
    requires Sound(s)
    ensures Sound(Apply(s, op))
  {
    hide Sound, RefundRows, TopUp, Send, Settle, Expire, OpenBill, PayBill, CancelBill, NewBill;
    match op
    case TopUpOp(user, amount) => TopUpSound(s, user, amount);
    case SendOp(id, from, to, amount, now, allowed, delivered) =>
      SendSound(s, id, from, to, amount, now, allowed, delivered);
    case AnswerOp(id, me, accept, now) =>
      ExpireSound(s, now);
      SettleSound(s, id, accept);
    case ExpireOp(now) => ExpireSound(s, now);
    case OpenOp(id, bill) => if NewBill(bill) { OpenBillSound(s, id, bill); }
    case PayOp(id, payer, amount) => PayBillSound(s, id, payer, amount);
    case CancelOp(id, me) => CancelBillSound(s, id, me);
  }

  lemma ToppedStep(s: Tables, op: Op)
    ensures Sum(Apply(s, op).topped) ==
            Sum(s.topped) + if op.TopUpOp? && TopUp(s, op.user, op.amount).1 == Done then op.amount else 0
  {
    hide Sum;
    if op.TopUpOp? && TopUp(s, op.user, op.amount).1 == Done {
      SumUpdate(s.topped, op.user, Apply(s, op).topped[op.user]);
    } else {
      assert Apply(s, op).topped == s.topped;
    }
  }

  /** Over every run: the laws hold at the end, and money changed by exactly the accepted top-ups. */
  lemma {:induction false} RunConserves(s: Tables, ops: seq<Op>)
    requires Sound(s)
    ensures Sound(Run(s, ops))
    ensures Worth(Run(s, ops)) == Worth(s) + Deposited(s, ops)
    decreases |ops|
  {
    hide Apply, TopUp, Audited, TransfersSound, BillsSound, Solvent, Sum;
    if ops != [] {
      ApplySound(s, ops[0]);
      ToppedStep(s, ops[0]);
      RunConserves(Apply(s, ops[0]), ops[1..]);
    }
  }

  /** The tables of a fresh installation with some registered users. */
  ghost function Fresh(users: set<User>): Tables {
    Tables(map u | u in users :: 0, map[], map[], map[])
  }

  lemma FreshSound(users: set<User>)
    ensures Sound(Fresh(users)) && Worth(Fresh(users)) == 0
  {
    var s := Fresh(users);
    SumConstant(s.balances, 0);
    assert Column(s.transfers, Holding()) == map[];
    forall u | u in s.balances
      ensures Audit(s, u) == 0
    {
      assert Column(s.transfers, FlowTo(u)) == map[];
      assert Column(s.bills, BillFlowTo(u)) == map[];
    }
  }

  /**
   From a fresh installation, whatever happens: nobody is in debt, every balance is what
   the rows say, and balances plus escrow equal what was topped up.
   */
  lemma EveryRunBalances(users: set<User>, ops: seq<Op>)
    ensures
      var s := Run(Fresh(users), ops);
      && Worth(s) == Deposited(Fresh(users), ops)
      && forall u :: u in s.balances ==> s.balances[u] >= 0 && s.balances[u] == Audit(s, u)
  {
    hide Audit, Run, Fresh, Worth, TransfersSound, BillsSound, Deposited;
    FreshSound(users);
    RunConserves(Fresh(users), ops);
  }

  // ---- the life of one transfer ----

  /** Rows are never dropped or rewritten, and a row that left `Pending` never changes again. */
  ghost predicate Evolves(s: Tables, s': Tables) {
    forall id :: id in s.transfers ==>
                   && id in s'.transfers
                   && s'.transfers[id] == s.transfers[id].(state := s'.transfers[id].state)
                   && (s.transfers[id].state != Pending ==> s'.transfers[id] == s.transfers[id])
  }

  lemma ExpireEvolves(s: Tables, now: int)
    ensures Evolves(s, Expire(s, now))
  {
    hide Sum, Total, Column, Rows;
  }

  lemma ApplyEvolves(s: Tables, op: Op)
    ensures Evolves(s, Apply(s, op))
  {
    hide RefundRows, FairSplit, Share, Expire;
    match op
    case AnswerOp(id, me, accept, now) => ExpireEvolves(s, now);
    case ExpireOp(now) => ExpireEvolves(s, now);
    case _ =>
  }

  /** Over every run a transfer leaves `Pending` at most once and keeps its parties and amount. */
  lemma {:induction false} RunEvolves(s: Tables, ops: seq<Op>)
    ensures Evolves(s, Run(s, ops))
    decreases |ops|
  {
    hide Apply;
    if ops != [] {
      ApplyEvolves(s, ops[0]);
      RunEvolves(Apply(s, ops[0]), ops[1..]);
    }
  }

  // ---- what closing a transfer pays ----

  /** The row leaves `Pending` between the two states. */
  ghost predicate Exits(s: Tables, s': Tables, id: Id) {
    && id in s.transfers && s.transfers[id].state == Pending
    && id in s'.transfers && s'.transfers[id].state != Pending
  }

  ghost function Exiting(s: Tables, s': Tables): map<Id, Transfer> {
    map id | id in s.transfers && Exits(s, s', id) :: s'.transfers[id]
  }

  /** A closed row owes its amount to exactly one party: the receiver if accepted, else the sender. */
  ghost function CreditTo(user: User): Transfer -> int {
    (t: Transfer) => if user == (if t.state == Accepted then t.to else t.from) then t.amount else 0
  }

  lemma OneCredit(id: Id, t: Transfer, user: User)
    ensures Total(map[id := t], CreditTo(user)) == CreditTo(user)(t)
  {
    var none: map<Id, Transfer> := map[];
    assert Column(none, CreditTo(user)) == map[];
    assert none[id := t] == map[id := t];
    TotalUpdate(none, CreditTo(user), id, t);
  }

  lemma ExpireCredits(s: Tables, now: int, user: User)
    requires user in s.balances
    ensures user in Expire(s, now).balances
    ensures Expire(s, now).balances[user] == s.balances[user] + Total(Exiting(s, Expire(s, now)), CreditTo(user))
  {
    hide Sum;
    var s' := Expire(s, now);
    assert Exiting(s, s').Keys == Due(s, now);
    assert Column(Exiting(s, s'), CreditTo(user)) == Column(Rows(s, Due(s, now)), OwedTo(user));
  }

  lemma SettleCredits(s: Tables, id: Id, accept: bool, user: User)
    requires user in s.balances
    ensures
      var s' := Settle(s, id, accept).0;
      user in s'.balances && s'.balances[user] == s.balances[user] + Total(Exiting(s, s'), CreditTo(user))
  {
    hide Sum, Total;
    var s' := Settle(s, id, accept).0;
    if Settle(s, id, accept).1 == Done {
      OneCredit(id, s'.transfers[id], user);
      assert Exiting(s, s') == map[id := s'.transfers[id]];
    } else {
      NothingExits(s, user);
    }
  }

  lemma NothingExits(s: Tables, user: User)
    ensures Total(Exiting(s, s), CreditTo(user)) == 0
  {
    assert Column(Exiting(s, s), CreditTo(user)) == map[];
  }

  /**
   Only answers and expiry close rows, and they change every balance by exactly what the rows
   closed in that step owe the user.
   */
  lemma ExitCredits(s: Tables, op: Op, user: User)
    requires user in s.balances
    ensures
      var s' := Apply(s, op);
      if op.AnswerOp? || op.ExpireOp? then
        user in s'.balances && s'.balances[user] == s.balances[user] + Total(Exiting(s, s'), CreditTo(user))
      else Exiting(s, s') == map[]
  {
    hide Total, Settle, Expire, Column, Exiting, CreditTo;
    match op
    case AnswerOp(id, me, accept, now) =>
      ExpireCredits(s, now, user);
      SettleCredits(s, id, accept, user);
      NothingExits(s, user);
    case ExpireOp(now) => ExpireCredits(s, now, user);
    case _ => OthersCloseNothing(s, op);
  }

  lemma OthersCloseNothing(s: Tables, op: Op)
    requires !op.AnswerOp? && !op.ExpireOp?
    ensures Exiting(s, Apply(s, op)) == map[]
  {
    hide Total, Sum, FairSplit, Share, Paid;
    forall id | id in s.transfers
      ensures id in Apply(s, op).transfers && Apply(s, op).transfers[id] == s.transfers[id]
    {
    }
  }

  ghost predicate ExitsAt(s: Tables, ops: seq<Op>, i: nat, id: Id) {
    i < |ops| && Exits(Run(s, ops[..i]), Run(s, ops[..i + 1]), id)
  }

  lemma {:induction false} RunSplit(s: Tables, one: seq<Op>, two: seq<Op>)
    ensures Run(s, one + two) == Run(Run(s, one), two)
    decreases |one|
  {
    hide Apply;
    if one == [] {
      assert one + two == two;
    } else {
      assert (one + two)[0] == one[0] && (one + two)[1..] == one[1..] + two;
      RunSplit(Apply(s, one[0]), one[1..], two);
    }
  }

  /** Between two points of a run rows evolve. */
  lemma Onwards(s: Tables, ops: seq<Op>, i: nat, j: nat)
    requires i <= j <= |ops|
    ensures Evolves(Run(s, ops[..i]), Run(s, ops[..j]))
  {
    assert ops[..j] == ops[..i] + ops[i..j];
    RunSplit(s, ops[..i], ops[i..j]);
    RunEvolves(Run(s, ops[..i]), ops[i..j]);
  }

  lemma {:induction false} SomeStepCloses(s: Tables, ops: seq<Op>, id: Id, n: nat)
    requires id in s.transfers && s.transfers[id].state == Pending && n <= |ops|
    requires id in Run(s, ops[..n]).transfers && Run(s, ops[..n]).transfers[id].state != Pending
    ensures exists i: nat :: ExitsAt(s, ops, i, id)
  {
    hide Run;
    NoOps(s, ops);
    RowKept(s, ops, id, n - 1);
    if Run(s, ops[..n - 1]).transfers[id].state == Pending {
      assert ExitsAt(s, ops, n - 1, id);
    } else {
      SomeStepCloses(s, ops, id, n - 1);
    }
  }

  /** A row that is pending at the start is closed at the end exactly if some step closed it. */
  lemma ClosedBySomeStep(s: Tables, ops: seq<Op>, id: Id)
    requires id in s.transfers && s.transfers[id].state == Pending
    ensures id in Run(s, ops).transfers
    ensures Run(s, ops).transfers[id].state != Pending <==> exists i: nat :: ExitsAt(s, ops, i, id)
  {
    hide Evolves, Run;
    assert ops[..|ops|] == ops;
    RowKept(s, ops, id, |ops|);
    if i: nat :| ExitsAt(s, ops, i, id) {
      StaysClosed(s, ops, i, id);
    }
    if Run(s, ops).transfers[id].state != Pending {
      SomeStepCloses(s, ops, id, |ops|);
    }
  }

  lemma NoOps(s: Tables, ops: seq<Op>)
    ensures Run(s, ops[..0]) == s
  {
  }

  lemma RowKept(s: Tables, ops: seq<Op>, id: Id, i: nat)
    requires id in s.transfers && i <= |ops|
    ensures id in Run(s, ops[..i]).transfers
  {
    hide Run;
    NoOps(s, ops);
    Onwards(s, ops, 0, i);
  }

  lemma StaysClosed(s: Tables, ops: seq<Op>, i: nat, id: Id)
    requires ExitsAt(s, ops, i, id)
    ensures id in Run(s, ops).transfers && Run(s, ops).transfers[id] == Run(s, ops[..i + 1]).transfers[id]
  {
    hide Run;
    assert ops[..|ops|] == ops;
    Onwards(s, ops, i + 1, |ops|);
  }

  /**
   Over every run a transfer is closed by one step at most, and the row that step leaves is
   the row at the end. With the credits of that step: it pays one party, once.
   */
  lemma ClosedOnce(s: Tables, ops: seq<Op>, id: Id, i: nat)
    requires ExitsAt(s, ops, i, id)
    ensures forall j: nat :: ExitsAt(s, ops, j, id) ==> j == i
    ensures id in Run(s, ops).transfers && Run(s, ops).transfers[id] == Run(s, ops[..i + 1]).transfers[id]
    ensures
      var before, after := Run(s, ops[..i]), Run(s, ops[..i + 1]);
      forall u :: u in before.balances ==>
                    && u in after.balances
                    && after.balances[u] == before.balances[u] + Total(Exiting(before, after), CreditTo(u))
  {
    hide Run, Apply;
    StaysClosed(s, ops, i, id);
    forall j: nat | ExitsAt(s, ops, j, id)
      ensures j == i
    {
      if j < i {
        Onwards(s, ops, j + 1, i);
      } else if i < j {
        Onwards(s, ops, i + 1, j);
      }
    }
    var before := Run(s, ops[..i]);
    LastOp(s, ops, i);
    hide Total, Column, Sum, CreditTo;
    forall u | u in before.balances
      ensures u in Apply(before, ops[i]).balances
              && Apply(before, ops[i]).balances[u] ==
                 before.balances[u] + Total(Exiting(before, Apply(before, ops[i])), CreditTo(u))
    {
      assert id in Exiting(before, Apply(before, ops[i]));
      ExitCredits(before, ops[i], u);
    }
  }

  lemma LastOp(s: Tables, ops: seq<Op>, i: nat)
    requires i < |ops|
    ensures Run(s, ops[..i + 1]) == Apply(Run(s, ops[..i]), ops[i])
  {
    hide Apply;
    assert ops[..i + 1] == ops[..i] + [ops[i]];
    RunSplit(s, ops[..i], [ops[i]]);
    assert [ops[i]][1..] == [];
  }
}
