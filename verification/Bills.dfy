/**
 Shared bills: who owes what, and when the payments add up. Amounts are whole cents and
 never negative here, so Dafny's division is the truncating division of the program.
 */
module Bills {
  import opened Arithmetic
  import opened Wrappers
  import opened Sums

  type User = string

  datatype Split = Equal | Custom(shares: map<User, int>)
  datatype BillStatus = Open | Settled | Cancelled

  datatype Bill = Bill(
    creator: User, total: int, participants: seq<User>, split: Split,
    settled: int, status: BillStatus, payments: map<User, int>)

  /** What `user` has to pay; nothing for strangers. */
  function Share(bill: Bill, user: User): Option<int> {
    if user !in bill.participants then None
    else match bill.split
      case Custom(shares) => if user in shares then Some(shares[user]) else None
      case Equal => Some(bill.total / |bill.participants|)
  }

  ghost function Members(bill: Bill): set<User> {
    set u | u in bill.participants
  }

  ghost predicate Distinct<T>(xs: seq<T>) {
    forall i, j :: 0 <= i < j < |xs| ==> xs[i] != xs[j]
  }

  /** What creation establishes and neither payment nor cancellation touches. */
  ghost predicate FairSplit(bill: Bill) {
    && Distinct(bill.participants) && |bill.participants| >= 1
    && bill.creator !in bill.participants
    && bill.total > 0
    && match bill.split
       case Custom(shares) =>
         && shares.Keys == Members(bill)
         && (forall u :: u in shares ==> shares[u] > 0)
         && Sum(shares) == bill.total
       case Equal => bill.total >= |bill.participants|
  }

  /** Every recorded payment is the payer's share, and the running total agrees with them. */
  ghost predicate BillSound(bill: Bill) {
    && FairSplit(bill)
    && bill.payments.Keys <= Members(bill)
    && (forall u :: u in bill.payments ==> Share(bill, u) == Some(bill.payments[u]))
    && bill.settled == Sum(bill.payments)
    && (bill.status == Settled <==> bill.settled >= bill.total)
  }

  lemma {:induction false} DistinctCount<T>(xs: seq<T>)
    requires Distinct(xs)
    ensures |set x | x in xs| == |xs|
  {
    if xs != [] {
      var rest := xs[..|xs| - 1];
      DistinctCount(rest);
      assert xs == rest + [xs[|xs| - 1]];
      assert (set x | x in xs) == (set x | x in rest) + {xs[|xs| - 1]};
    }
  }

  lemma SharesAddUp(total: int, n: int, k: int)
    requires 1 <= n <= total && 0 <= k <= n
    ensures (total / n) * k <= total
    ensures k == n ==> (total / n) * k == total - total % n
    ensures (total / n) * k == total <==> k == n && total % n == 0
    ensures total / n >= 1
  {
    var c, r := total / n, total % n;
    assert total == n * c + r && 0 <= r < n;
    assert n * c == c * n;
    if c <= 0 {
      TimesMonotone(n, c, 0);
    }
    TimesMonotone(c, k, n);
    if k < n {
      TimesMonotone(c, k, n - 1);
      assert c * (n - 1) == c * n - c;
    }
  }

  /** The collected sum of an equal bill is the common share times the number of payers. */
  lemma EqualCollected(bill: Bill)
    requires BillSound(bill) && bill.split == Equal
    ensures bill.settled == (bill.total / |bill.participants|) * |bill.payments|
    ensures |bill.payments| <= |bill.participants|
    ensures |bill.payments| == |bill.participants| <==> bill.payments.Keys == Members(bill)
  {
    SumConstant(bill.payments, bill.total / |bill.participants|);
    DistinctCount(bill.participants);
    var paid, all := bill.payments.Keys, Members(bill);
    assert |all| == |paid| + |all - paid| by {
      assert all == paid + (all - paid);
    }
    if |paid| == |all| {
      assert all - paid == {};
    }
  }

  lemma NeverOvercollects(bill: Bill)
    requires BillSound(bill)
    ensures 0 <= bill.settled <= bill.total
    ensures bill.status == Settled ==> bill.settled == bill.total
  {
    match bill.split {
      case Custom(shares) =>
        SumPart(bill.payments, shares);
        SumPart(map[], bill.payments);
      case Equal =>
        EqualCollected(bill);
        SharesAddUp(bill.total, |bill.participants|, |bill.payments|);
    }
  }

  /** A custom bill is settled exactly when every participant has paid. */
  lemma CustomSettledExactly(bill: Bill)
    requires BillSound(bill) && bill.split.Custom?
    ensures bill.status == Settled <==> bill.payments.Keys == Members(bill)
  {
    SumPart(bill.payments, bill.split.shares);
  }

  /**
   An equal bill loses the division remainder: with everybody in, it has collected
   `total - total % n`, so it can only ever be settled when `n` divides the total.
   */
  lemma EqualSettledExactly(bill: Bill)
    requires BillSound(bill) && bill.split == Equal
    ensures bill.payments.Keys == Members(bill) ==> bill.settled == bill.total - bill.total % |bill.participants|
    ensures bill.status == Settled <==>
            bill.payments.Keys == Members(bill) && bill.total % |bill.participants| == 0
  {
    EqualCollected(bill);
    SharesAddUp(bill.total, |bill.participants|, |bill.payments|);
  }

  /** The bill after `user` pays `amount`. */
  function Paid(bill: Bill, user: User, amount: int): Bill {
    var settled := bill.settled + amount;
    bill.(settled := settled, payments := bill.payments[user := amount],
          status := if settled >= bill.total then Settled else Open)
  }

  lemma PaidSound(bill: Bill, user: User, amount: int)
    requires BillSound(bill) && bill.status == Open
    requires user !in bill.payments && Share(bill, user) == Some(amount)
    ensures BillSound(Paid(bill, user, amount))
    ensures amount > 0
  {
    SumUpdate(bill.payments, user, amount);
    if bill.split == Equal {
      SharesAddUp(bill.total, |bill.participants|, 0);
    }
    forall u | u in Paid(bill, user, amount).payments
      ensures Share(Paid(bill, user, amount), u) == Some(Paid(bill, user, amount).payments[u])
    {
      assert Share(Paid(bill, user, amount), u) == Share(bill, u);
    }
  }
}
