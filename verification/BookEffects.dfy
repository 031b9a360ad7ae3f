/**
 What each money handler does to the people involved, told in terms of balances, rows and
 bills alone: when it is carried out, who gains and who pays how much, and which row changes
 how. Whatever is not mentioned as changed stays as it was.
 */
module BookEffects {
  import opened Wrappers
  import opened Sums
  import opened Bills
  import opened Books
  import opened BookRuns

  /** A top-up is taken in full or not at all. */
  lemma TopUpMeaning(s: Tables, user: User, amount: int)
    ensures
      var (s', reply) := TopUp(s, user, amount);
      && Apply(s, TopUpOp(user, amount)) == s'
      && (reply == Done <==> 0 < amount <= 200_000_000 && user in s.balances && s.balances[user] + amount >= 0)
      && (reply == BadAmount <==> !(0 < amount <= 200_000_000))
      && (reply == Missing <==> 0 < amount <= 200_000_000 && user !in s.balances)
      && reply in {Done, BadAmount, Missing, TooPoor}
      && (reply != Done ==> s' == s)
      && (reply == Done ==>
          && s'.balances == s.balances[user := s.balances[user] + amount]
          && s'.topped == s.topped[user := (if user in s.topped then s.topped[user] else 0) + amount]
          && s'.transfers == s.transfers && s'.bills == s.bills)
  {
  }

  /** Escrow takes exactly the amount from the sender and leaves a pending row. */
  lemma EscrowMeaning(s: Tables, id: Id, from: User, to: User, amount: int, expiredAt: int)
    ensures
      var (s', reply) := Escrow(s, id, from, to, amount, expiredAt);
      && (reply == Done <==> id !in s.transfers && from in s.balances && s.balances[from] >= amount)
      && (reply == Duplicate <==> id in s.transfers)
      && (reply == TooPoor <==> id !in s.transfers && from in s.balances && s.balances[from] < amount)
      && reply in {Done, Duplicate, Missing, TooPoor}
      && (reply != Done ==> s' == s)
      && (reply == Done ==>
          && s'.balances == s.balances[from := s.balances[from] - amount]
          && s'.transfers == s.transfers[id := Transfer(from, to, amount, Pending, expiredAt)]
          && s'.bills == s.bills && s'.topped == s.topped)
  {
  }

  /** A pending row goes back to its sender in full and is closed as refunded. */
  lemma CancelRefundMeaning(s: Tables, id: Id)
    ensures
      var (s', reply) := CancelRefund(s, id);
      && (reply == Done <==>
          && id in s.transfers && s.transfers[id].state == Pending && s.transfers[id].from in s.balances
          && s.balances[s.transfers[id].from] + s.transfers[id].amount >= 0)
      && (reply == Closed <==> id in s.transfers && s.transfers[id].state != Pending)
      && reply in {Done, Closed, Missing}
      && (reply != Done ==> s' == s)
      && (reply == Done ==>
          var row := s.transfers[id];
          && s'.balances == s.balances[row.from := s.balances[row.from] + row.amount]
          && s'.transfers == s.transfers[id := Transfer(row.from, row.to, row.amount, Refunded, row.expiredAt)]
          && s'.bills == s.bills && s'.topped == s.topped)
  {
  }

  /** A transfer is refused for the first of these reasons that applies. */
  lemma SendReplies(s: Tables, id: Id, from: User, to: User, amount: int, now: int, allowed: bool, delivered: bool)
    ensures Send(s, id, from, to, amount, now, allowed, delivered).1 ==
            if !(0 < amount <= 200_000_000) then BadAmount
            else if from == to then ToSelf
            else if to !in s.balances then Missing
            else if !allowed then NotAllowed
            else if id in s.transfers then Duplicate
            else if from !in s.balances then Missing
            else if s.balances[from] < amount then TooPoor
            else if delivered then Done else Undelivered
  {
  }

  /**
   The sender pays exactly the amount, which then waits for a day. An undelivered transfer
   leaves nothing but a refunded row.
   */
  lemma SendMeaning(s: Tables, id: Id, from: User, to: User, amount: int, now: int, allowed: bool, delivered: bool)
    ensures Apply(s, SendOp(id, from, to, amount, now, allowed, delivered)) ==
            Send(s, id, from, to, amount, now, allowed, delivered).0
    ensures
      var (s', reply) := Send(s, id, from, to, amount, now, allowed, delivered);
      && (reply !in {Done, Undelivered} ==> s' == s)
      && (reply == Done ==>
          && from in s.balances && s'.balances == s.balances[from := s.balances[from] - amount]
          && s'.transfers == s.transfers[id := Transfer(from, to, amount, Pending, now + 24 * 3_600_000)])
      && (reply == Undelivered ==>
          && s'.balances == s.balances
          && s'.transfers == s.transfers[id := Transfer(from, to, amount, Refunded, now + 24 * 3_600_000)])
      && s'.bills == s.bills && s'.topped == s.topped
  {
    SendReplies(s, id, from, to, amount, now, allowed, delivered);
    SendRefusedKeepsBalances(s, id, from, to, amount, now, allowed, delivered);
    EscrowMeaning(s, id, from, to, amount, now + DAY_MS);
    CancelRefundMeaning(Escrow(s, id, from, to, amount, now + DAY_MS).0, id);
    hide Escrow, CancelRefund;
  }

  /**
   Accepting pays the receiver, rejecting pays the sender, each exactly the amount; nobody
   else's balance and no other row changes.
   */
  lemma AnswerMeaning(s: Tables, id: Id, me: User, accept: bool, now: int)
    ensures
      var (s', reply) := Answer(s, id, me, accept, now);
      && Apply(s, AnswerOp(id, me, accept, now)) == s'
      && (reply == NotYours <==> id in s.transfers && s.transfers[id].to != me)
      && (reply == Closed <==> id in s.transfers && s.transfers[id].to == me && s.transfers[id].state != Pending)
      && (reply == Expired <==>
          && id in s.transfers && s.transfers[id].to == me && s.transfers[id].state == Pending
          && s.transfers[id].expiredAt <= now)
      && (reply == Done <==>
          && id in s.transfers && s.transfers[id].to == me && s.transfers[id].state == Pending
          && s.transfers[id].expiredAt > now
          && (accept ==> me in s.balances && s.balances[me] + s.transfers[id].amount >= 0)
          && (!accept ==>
              && s.transfers[id].from in s.balances
              && s.balances[s.transfers[id].from] + s.transfers[id].amount >= 0))
      && reply in {Done, NotYours, Closed, Expired, Missing}
      && (reply !in {Done, Expired} ==> s' == s)
      && (reply == Expired ==> s' == Expire(s, now))
      && (reply == Done ==> s'.bills == s.bills && s'.topped == s.topped)
      && (reply == Done && accept ==>
          var row := s.transfers[id];
          && s'.balances == s.balances[row.to := s.balances[row.to] + row.amount]
          && s'.transfers == s.transfers[id := Transfer(row.from, row.to, row.amount, Accepted, row.expiredAt)])
      && (reply == Done && !accept ==>
          var row := s.transfers[id];
          && s'.balances == s.balances[row.from := s.balances[row.from] + row.amount]
          && s'.transfers == s.transfers[id := Transfer(row.from, row.to, row.amount, Rejected, row.expiredAt)])
  {
  }

  /** Under the accounting laws an answer in time by the receiver always goes through, if it has a wallet. */
  lemma AnswerInTime(s: Tables, id: Id, accept: bool, now: int)
    requires Sound(s) && id in s.transfers && s.transfers[id].state == Pending && s.transfers[id].expiredAt > now
    ensures Answer(s, id, s.transfers[id].to, accept, now).1 == Done <==> !accept || s.transfers[id].to in s.balances
  {
    hide Sum, Total, Worth, Audited, BillsSound, Expire, Settle;
    AnswerMeaning(s, id, s.transfers[id].to, accept, now);
    SoundRow(s, id);
  }

  /** The same for the step between the checks and the end of an answer. */
  lemma SettleMeaning(s: Tables, id: Id, accept: bool)
    ensures
      var (s', reply) := Settle(s, id, accept);
      && (reply == Closed <==> id in s.transfers && s.transfers[id].state != Pending)
      && reply in {Done, Closed, Missing}
      && (reply != Done ==> s' == s)
      && (reply == Done ==>
          var row := s.transfers[id];
          var user := if accept then row.to else row.from;
          && row.state == Pending && user in s.balances
          && s'.balances == s.balances[user := s.balances[user] + row.amount]
          && s'.transfers[id].state == (if accept then Accepted else Rejected)
          && s'.transfers == s.transfers[id := row.(state := s'.transfers[id].state)]
          && s'.bills == s.bills && s'.topped == s.topped)
  {
  }

  /**
   The commit half of expiry, on whatever rows were read earlier: each becomes refunded, and its
   sender, nobody else, gets the amount, closed in between or not.
   */
  lemma CommitMeaning(s: Tables, ids: set<Id>)
    ensures
      var s' := RefundRows(s, ids);
      && s'.transfers.Keys == s.transfers.Keys
      && (forall id :: id in s.transfers ==>
            var row := s.transfers[id];
            s'.transfers[id] ==
            if id in ids then Transfer(row.from, row.to, row.amount, Refunded, row.expiredAt) else row)
      && s'.balances.Keys == s.balances.Keys
      && (forall u :: u in s.balances ==>
            s'.balances[u] == s.balances[u] +
                              Sum(map id | id in s.transfers && id in ids && s.transfers[id].from == u
                                    :: s.transfers[id].amount))
      && s'.bills == s.bills && s'.topped == s.topped
  {
    hide Sum;
    forall u | u in s.balances
      ensures Total(Rows(s, ids), OwedTo(u)) ==
              Sum(map id | id in s.transfers && id in ids && s.transfers[id].from == u :: s.transfers[id].amount)
    {
      var own := map id | id in s.transfers && id in ids && s.transfers[id].from == u :: s.transfers[id].amount;
      SumSkipsZeros(Column(Rows(s, ids), OwedTo(u)), own);
    }
  }

  /** Expiry closes exactly the pending rows whose time has come and pays every sender their amounts. */
  lemma ExpireMeaning(s: Tables, now: int)
    ensures Apply(s, ExpireOp(now)) == Expire(s, now)
    ensures
      var s' := Expire(s, now);
      && s'.transfers.Keys == s.transfers.Keys
      && (forall id :: id in s.transfers ==>
            var row := s.transfers[id];
            s'.transfers[id] ==
            if row.state == Pending && row.expiredAt <= now
            then Transfer(row.from, row.to, row.amount, Refunded, row.expiredAt) else row)
      && s'.balances.Keys == s.balances.Keys
      && (forall u :: u in s.balances ==>
            s'.balances[u] == s.balances[u] +
                              Sum(map id | && id in s.transfers && s.transfers[id].state == Pending
                                           && s.transfers[id].expiredAt <= now && s.transfers[id].from == u
                                    :: s.transfers[id].amount))
      && s'.bills == s.bills && s'.topped == s.topped
  {
    hide Sum;
    var due := Due(s, now);
    CommitMeaning(s, due);
    forall u | u in s.balances
      ensures (map id | id in s.transfers && id in due && s.transfers[id].from == u :: s.transfers[id].amount) ==
              (map id | && id in s.transfers && s.transfers[id].state == Pending
                        && s.transfers[id].expiredAt <= now && s.transfers[id].from == u
                 :: s.transfers[id].amount)
    {
    }
    hide RefundRows;
  }

  /** What a participant owes: the own part of a custom split, else an equal part, fractions dropped. */
  lemma ShareMeaning(bill: Bill, user: User)
    requires FairSplit(bill)
    ensures Share(bill, user).None? <==> user !in bill.participants
    ensures user in bill.participants && bill.split == Equal ==>
              Share(bill, user) == Some(bill.total / |bill.participants|)
    ensures user in bill.participants && bill.split.Custom? ==>
              user in bill.split.shares && Share(bill, user) == Some(bill.split.shares[user])
    ensures user in bill.participants ==> user != bill.creator && Share(bill, user).value > 0
  {
    hide Sum;
    if user in bill.participants {
      assert user in Members(bill);
      if bill.split == Equal {
        SharesAddUp(bill.total, |bill.participants|, 0);
      }
    }
  }

  /**
   A payment goes through if and only if the bill is open, the payer takes part and has not paid
   yet, offers exactly the own share (or nothing in particular) and can afford it.
   */
  lemma PayAccepted(s: Tables, id: Id, payer: User, offered: Option<int>)
    requires Sound(s) && id in s.bills
    ensures
      var bill, reply := s.bills[id], PayBill(s, id, payer, offered).1;
      && (reply == NotParticipant <==> payer !in bill.participants)
      && (payer in bill.participants ==> (reply == Closed <==> bill.status != Open))
      && (payer in bill.participants && bill.status == Open ==> (reply == Duplicate <==> payer in bill.payments))
      && (payer in bill.participants && bill.status == Open && payer !in bill.payments ==>
          var due := Share(bill, payer).value;
          && (reply == WrongAmount <==> offered.Some? && offered.value != due)
          && (offered == None || offered == Some(due) ==>
              && (reply == TooPoor <==> payer in s.balances && s.balances[payer] < due)
              && (reply == Done <==> payer in s.balances && s.balances[payer] >= due && bill.creator in s.balances)))
      && reply in {NotParticipant, Closed, Duplicate, WrongAmount, TooPoor, Done, Missing}
  {
    hide Sound, Share, FairSplit, Paid;
    SoundBill(s, id);
    ShareMeaning(s.bills[id], payer);
    if s.bills[id].creator in s.balances {
      NoDebt(s, s.bills[id].creator);
    }
  }

  lemma NoDebt(s: Tables, user: User)
    requires Sound(s) && user in s.balances
    ensures s.balances[user] >= 0
  {
  }

  /** It moves the share from the payer to the creator and records it; a refusal changes nothing. */
  lemma PayMeaning(s: Tables, id: Id, payer: User, offered: Option<int>)
    requires Sound(s)
    ensures Apply(s, PayOp(id, payer, offered)) == PayBill(s, id, payer, offered).0
    ensures
      var (s', reply) := PayBill(s, id, payer, offered);
      && (id !in s.bills ==> reply == Missing)
      && (reply != Done ==> s' == s)
      && (reply == Done ==>
          && id in s.bills && Share(s.bills[id], payer).Some?
          && payer in s.balances && s.bills[id].creator in s.balances
          && var bill := s.bills[id];
             var due, creator := Share(bill, payer).value, bill.creator;
             && s'.balances == s.balances[payer := s.balances[payer] - due][creator := s.balances[creator] + due]
             && s'.bills == s.bills[id := Bill(creator, bill.total, bill.participants, bill.split, bill.settled + due,
                                               if bill.settled + due >= bill.total then Settled else Open,
                                               bill.payments[payer := due])]
             && s'.transfers == s.transfers && s'.topped == s.topped)
  {
    hide Sound, Share, FairSplit;
    if id in s.bills {
      SoundBill(s, id);
      ShareMeaning(s.bills[id], payer);
    }
  }

  lemma SoundBill(s: Tables, id: Id)
    requires Sound(s) && id in s.bills
    ensures FairSplit(s.bills[id])
  {
    assert BillSound(s.bills[id]);
  }

  /** Only the creator cancels, only an open bill, and nothing is paid back. */
  lemma CancelMeaning(s: Tables, id: Id, me: User)
    ensures
      var (s', reply) := CancelBill(s, id, me);
      && Apply(s, CancelOp(id, me)) == s'
      && (reply == Done <==> id in s.bills && s.bills[id].creator == me && s.bills[id].status == Open)
      && (reply == NotYours <==> id in s.bills && s.bills[id].creator != me)
      && reply in {Done, NotYours, Closed, Missing}
      && s'.balances == s.balances && s'.transfers == s.transfers && s'.topped == s.topped
      && s'.bills == if reply == Done then s.bills[id := s.bills[id].(status := Cancelled)] else s.bills
  {
  }

  /** A bill is stored as it is, under an id nothing else has. */
  lemma OpenMeaning(s: Tables, id: Id, bill: Bill)
    ensures
      var (s', reply) := OpenBill(s, id, bill);
      && (NewBill(bill) ==> Apply(s, OpenOp(id, bill)) == s')
      && (reply == Done <==> id !in s.bills)
      && s'.balances == s.balances && s'.transfers == s.transfers && s'.topped == s.topped
      && s'.bills == if id in s.bills then s.bills else s.bills[id := bill]
  {
  }
}
