/**
 Red packets: the two ways of cutting a share, the claim transaction, and what holds when a
 share is read and claimed in one step as opposed to in two steps with others in between.
 */
module RedPackets {
  import opened Arithmetic
  import opened Wrappers

  const MAX_AMOUNT: int := 200_000_000
  const MAX_COUNT: int := 200

  type User = string
  type Id = string

  datatype Kind = Normal | Lucky
  datatype Status = Active | Finished | Expired
  datatype Record = Record(claimer: User, amount: int)

  datatype Packet = Packet(
    sender: User, kind: Kind, totalAmount: int, totalCount: int, remaining: int, remainCount: int,
    status: Status, expiredAt: Option<int>, records: seq<Record>)

  datatype Reply = Claimed(amount: int) | Missing | OwnPacket | Hidden | TooLate | Duplicate | Empty

  function Max(a: int, b: int): int {
    if a < b then b else a
  }

  /** Division that drops the fraction on both sides of zero. */
  function TruncDiv(a: int, b: int): int
    requires b > 0
  {
    if a >= 0 then a / b else -((-a) / b)
  }

  /** The quotient is the one nearest to zero that leaves less than the divisor. */
  lemma TowardsZero(a: int, b: int)
    requires b > 0
    ensures var q := TruncDiv(a, b); if a >= 0 then 0 <= a - b * q < b else -b < a - b * q <= 0
  {
    if a < 0 {
      assert -a == b * ((-a) / b) + (-a) % b;
      assert b * TruncDiv(a, b) == -(b * ((-a) / b));
    }
  }

  function EvenShare(remaining: int, left: int): int {
    var base := TruncDiv(remaining, Max(left, 1));
    remaining - base * Max(left - 1, 0)
  }

  /** `draw` is the random word; the program draws it afresh on every call. */
  function LuckyShare(remaining: int, left: int, draw: nat): int {
    if left <= 1 then remaining
    else
      var most := TruncDiv(remaining - (left - 1), left);
      if most <= 1 then 1 else 1 + draw % most
  }

  function ShareOf(kind: Kind, remaining: int, left: int, draw: nat): int {
    if kind == Lucky then LuckyShare(remaining, left, draw) else EvenShare(remaining, left)
  }

  lemma QuotientUnique(a: int, b: int, q: int)
    requires b > 0 && b * q <= a < b * q + b
    ensures a / b == q
  {
    var d := a / b;
    assert a == b * d + a % b;
    if d <= q - 1 {
      TimesMonotone(b, d, q - 1);
      TimesPredecessor(b, q);
    }
    if q <= d - 1 {
      TimesMonotone(b, q, d - 1);
      TimesPredecessor(b, d);
    }
  }

  lemma LuckyBounds(remaining: int, left: int, draw: nat)
    requires remaining >= left >= 1
    ensures 1 <= LuckyShare(remaining, left, draw) <= remaining - (left - 1)
  {
    if left > 1 {
      var most := (remaining - (left - 1)) / left;
      if most > 1 {
        TimesMonotone(most, 1, left);
        assert most * left == left * most;
      }
    }
  }

  /** An even share of what is open is the common part plus whatever does not divide. */
  lemma EvenBounds(remaining: int, left: int)
    requires remaining >= left >= 1
    ensures EvenShare(remaining, left) == remaining / left + remaining % left
    ensures 1 <= EvenShare(remaining, left) <= remaining - (left - 1)
    ensures remaining - EvenShare(remaining, left) == (remaining / left) * (left - 1)
  {
    var base := remaining / left;
    TimesPredecessor(base, left);
    assert base * left == left * base;
    TimesMonotone(left - 1, 1, base);
    assert base * (left - 1) == (left - 1) * base;
  }

  /** Once the remainder is gone, even shares are the common part. */
  lemma EvenRest(base: int, left: int)
    requires base >= 1 && left >= 1
    ensures EvenShare(base * left, left) == base
    ensures base * left - base == base * (left - 1)
  {
    TimesPredecessor(base, left);
    TimesMonotone(base, 1, left);
    assert left * base == base * left;
    QuotientUnique(base * left, left, base);
  }

  /** With at least one cent per open slot, a share takes at least one and leaves one for each other slot. */
  lemma ShareBounds(kind: Kind, remaining: int, left: int, draw: nat)
    requires remaining >= left >= 1
    ensures 1 <= ShareOf(kind, remaining, left, draw) <= remaining - (left - 1)
    ensures left == 1 ==> ShareOf(kind, remaining, left, draw) == remaining
  {
    LuckyBounds(remaining, left, draw);
    EvenBounds(remaining, left);
  }

  /**
   A lucky share before the last slot takes every value from one up to the even part of what
   is not reserved, each exactly once in that many consecutive draws.
   */
  lemma LuckyReach(remaining: int, left: int, v: int, draw: nat)
    requires remaining >= left >= 2
    ensures
      var even := (remaining - (left - 1)) / left;
      var most := if even < 1 then 1 else even;
      && 1 <= ShareOf(Lucky, remaining, left, draw) <= most
      && (1 <= v <= most ==> ShareOf(Lucky, remaining, left, v - 1) == v)
      && ShareOf(Lucky, remaining, left, draw + most) == ShareOf(Lucky, remaining, left, draw)
  {
    var even := (remaining - (left - 1)) / left;
    hide TruncDiv;
    assert TruncDiv(remaining - (left - 1), left) == even by {
      PositiveQuotient(remaining - (left - 1), left);
    }
    if even > 1 {
      RoundAgain(draw, even);
      if 1 <= v <= even {
        QuotientUnique(v - 1, even, 0);
      }
    }
  }

  lemma PositiveQuotient(a: int, b: int)
    requires a >= 0 && b > 0
    ensures TruncDiv(a, b) == a / b
  {
  }

  lemma RoundAgain(draw: nat, most: nat)
    requires most > 0
    ensures (draw + most) % most == draw % most
  {
    var q := draw / most;
    assert draw == most * q + draw % most;
    assert most * (q + 1) == most * q + most;
    QuotientUnique(draw + most, most, q + 1);
    assert draw + most == most * ((draw + most) / most) + (draw + most) % most;
  }

  /** With less than a cent per open slot, or at the last one, a normal share is all that is left. */
  lemma EvenShort(remaining: int, left: int, draw: nat)
    requires 0 <= remaining < left || left <= 1
    ensures ShareOf(Normal, remaining, left, draw) == remaining
  {
    var base := TruncDiv(remaining, Max(left, 1));
    hide TruncDiv;
    if left > 1 {
      PositiveQuotient(remaining, left);
      QuotientUnique(remaining, left, 0);
    }
    assert base * Max(left - 1, 0) == 0;
  }

  function Total(records: seq<Record>): int {
    if records == [] then 0 else Total(records[..|records| - 1]) + records[|records| - 1].amount
  }

  predicate HasClaimed(records: seq<Record>, user: User) {
    exists r :: r in records && r.claimer == user
  }

  function Create(sender: User, kind: Kind, total: int, count: int, expiredAt: int): Option<Packet> {
    if total <= 0 || total > MAX_AMOUNT || count <= 0 || count > MAX_COUNT || total < count then None
    else Some(Packet(sender, kind, total, count, total, count, Active, Some(expiredAt), []))
  }

  /** The claim transaction, for whatever share the caller computed earlier. */
  function Claim(p: Packet, claimer: User, amount: int): (Packet, Reply) {
    if p.remainCount <= 0 || p.remaining < amount || p.status != Active then (p, Empty)
    else if HasClaimed(p.records, claimer) then (p, Duplicate)
    else
      var remaining, remainCount := p.remaining - amount, p.remainCount - 1;
      (p.(remaining := remaining, remainCount := remainCount,
          status := if remainCount <= 0 || remaining <= 0 then Finished else Active,
          records := p.records + [Record(claimer, amount)]), Claimed(amount))
  }

  function Expire(p: Packet, now: int): Packet {
    if p.status == Active && p.expiredAt.Some? && p.expiredAt.value <= now then p.(status := Expired) else p
  }

  /** Who gets a share whose size is given, and what is left behind. */
  lemma ClaimMeaning(p: Packet, claimer: User, amount: int)
    ensures
      var (p', reply) := Claim(p, claimer, amount);
      && (reply == Claimed(amount) <==>
          && p.status == Active && p.remainCount > 0 && amount <= p.remaining
          && forall r :: r in p.records ==> r.claimer != claimer)
      && (reply == Duplicate <==>
          && p.status == Active && p.remainCount > 0 && amount <= p.remaining
          && exists r :: r in p.records && r.claimer == claimer)
      && reply in {Claimed(amount), Duplicate, Empty}
      && (reply != Claimed(amount) ==> p' == p)
      && (reply == Claimed(amount) ==>
          && p'.records == p.records + [Record(claimer, amount)]
          && p'.remaining == p.remaining - amount && p'.remainCount == p.remainCount - 1
          && (p'.status == Finished <==> p.remainCount == 1 || amount == p.remaining)
          && p' == p.(records := p'.records, remaining := p'.remaining, remainCount := p'.remainCount,
                      status := p'.status)
          && p'.status in {Active, Finished})
  {
  }

  /** `redpacket.claim` in one step; `visible` is the outcome of the session check. */
  function ClaimAtomically(p: Packet, me: User, visible: bool, now: int, draw: nat): (Packet, Reply) {
    if p.sender == me then (p, OwnPacket)
    else if !visible then (p, Hidden)
    else if p.expiredAt.Some? && p.expiredAt.value <= now then (Expire(p, now), TooLate)
    else if HasClaimed(p.records, me) then (p, Duplicate)
    else
      var share := ShareOf(p.kind, p.remaining, p.totalCount - |p.records|, draw);
      if share <= 0 then (p, Empty) else Claim(p, me, share)
  }

  /** What a claimer is told, in the order of the checks, and what becomes of the packet. */
  lemma VisitMeaning(p: Packet, me: User, visible: bool, now: int, draw: nat)
    ensures
      var (p', reply) := ClaimAtomically(p, me, visible, now, draw);
      && (reply == OwnPacket <==> p.sender == me)
      && (p.sender != me ==> (reply == Hidden <==> !visible))
      && (p.sender != me && visible ==> (reply == TooLate <==> p.expiredAt.Some? && p.expiredAt.value <= now))
      && (reply == TooLate ==> p' == if p.status == Active then p.(status := Expired) else p)
      && (reply !in {OwnPacket, Hidden, TooLate} && (exists r :: r in p.records && r.claimer == me) ==>
          reply == Duplicate)
      && (reply.Claimed? ==>
          && p.status == Active && (forall r :: r in p.records ==> r.claimer != me)
          && reply.amount == ShareOf(p.kind, p.remaining, p.totalCount - |p.records|, draw)
          && (p', reply) == Claim(p, me, reply.amount))
      && (!reply.Claimed? && reply != TooLate ==> p' == p)
      && (reply.Claimed? || reply in {OwnPacket, Hidden, TooLate, Duplicate, Empty})
  {
    hide EvenShare, LuckyShare;
  }

  // ---- any interleaving ----

  /** The bookkeeping that survives arbitrarily stale shares. */
  ghost predicate Counted(p: Packet) {
    && p.remaining + Total(p.records) == p.totalAmount
    && p.remainCount + |p.records| == p.totalCount
    && p.remaining >= 0 && p.remainCount >= 0
    && (forall i, j :: 0 <= i < j < |p.records| ==> p.records[i].claimer != p.records[j].claimer)
    && (forall i :: 0 <= i < |p.records| ==> p.records[i].amount >= 1)
  }

  lemma ClaimCounted(p: Packet, claimer: User, amount: int)
    requires Counted(p) && amount >= 1
    ensures Counted(Claim(p, claimer, amount).0)
  {
    var p' := Claim(p, claimer, amount).0;
    if p' != p {
      assert p'.records[..|p'.records| - 1] == p.records;
      forall i | 0 <= i < |p.records|
        ensures p.records[i].claimer != claimer
      {
        assert p.records[i] in p.records;
      }
    }
  }

  /** A claim whose share was read at any earlier time (every share claimed is positive), or an expiry. */
  datatype Event = ClaimEvent(claimer: User, amount: nat) | ExpireEvent(now: int)

  function Play(p: Packet, events: seq<Event>): Packet
    decreases |events|
  {
    if events == [] then p
    else
      var e := events[0];
      Play(match e
           case ClaimEvent(claimer, amount) => if amount <= 0 then p else Claim(p, claimer, amount).0
           case ExpireEvent(now) => Expire(p, now),
           events[1..])
  }

  /** Events take effect one after the other; an offer of nothing has none. */
  lemma {:induction false} PlayOneMore(p: Packet, events: seq<Event>, e: Event)
    ensures Play(p, []) == p
    ensures
      var q := Play(p, events);
      Play(p, events + [e]) ==
      match e
      case ClaimEvent(claimer, amount) => if amount == 0 then q else Claim(q, claimer, amount).0
      case ExpireEvent(now) => Expire(q, now)
    decreases |events|
  {
    hide Claim, Expire;
    if events == [] {
      assert [] + [e] == [e] && [e][1..] == [];
    } else {
      assert (events + [e])[1..] == events[1..] + [e];
      PlayOneMore(match events[0]
                  case ClaimEvent(claimer, amount) => if amount <= 0 then p else Claim(p, claimer, amount).0
                  case ExpireEvent(now) => Expire(p, now), events[1..], e);
    }
  }

  /** However reads and claims interleave: nothing is paid twice, nothing is lost, nobody is recorded twice. */
  lemma {:induction false} EveryInterleavingCounts(p: Packet, events: seq<Event>)
    requires Counted(p)
    ensures Counted(Play(p, events))
    decreases |events|
  {
    if events != [] {
      match events[0] {
        case ClaimEvent(claimer, amount) =>
          if amount > 0 {
            ClaimCounted(p, claimer, amount);
            EveryInterleavingCounts(Claim(p, claimer, amount).0, events[1..]);
          } else {
            EveryInterleavingCounts(p, events[1..]);
          }
        case ExpireEvent(now) => EveryInterleavingCounts(Expire(p, now), events[1..]);
      }
    }
  }

  // ---- claims in one step ----

  /** Every open slot can still be served, and the packet closes exactly when both counters hit zero. */
  ghost predicate Fair(p: Packet) {
    && Counted(p)
    && p.remaining >= p.remainCount
    && (p.remaining == 0 <==> p.remainCount == 0)
    && (p.status == Finished <==> p.remainCount == 0)
  }

  /**
   Exactly which amounts keep a packet fair. The transaction itself only checks
   `amount <= remaining`; the difference is what a stale share can use up.
   */
  lemma FairClaimExact(p: Packet, claimer: User, amount: int)
    requires Fair(p) && p.status == Active && amount >= 1 && !HasClaimed(p.records, claimer)
    requires p.remaining >= amount
    ensures Fair(Claim(p, claimer, amount).0) <==>
            amount <= p.remaining - (p.remainCount - 1) && (p.remainCount == 1 ==> amount == p.remaining)
  {
    ClaimCounted(p, claimer, amount);
  }

  /** A share read and claimed in one step is always positive, always granted, and keeps the packet fair. */
  lemma AtomicClaimFair(p: Packet, me: User, visible: bool, now: int, draw: nat)
    requires Fair(p)
    ensures Fair(ClaimAtomically(p, me, visible, now, draw).0)
    ensures p.status == Active && p.sender != me && visible && !HasClaimed(p.records, me)
            && (p.expiredAt.Some? ==> p.expiredAt.value > now) ==>
              ClaimAtomically(p, me, visible, now, draw).1.Claimed?
  {
    hide EvenShare, LuckyShare, Total;
    var left := p.totalCount - |p.records|;
    if p.remainCount >= 1 {
      ShareBounds(p.kind, p.remaining, left, draw);
      var share := ShareOf(p.kind, p.remaining, left, draw);
      ClaimCounted(p, me, share);
      if p.status == Active && !HasClaimed(p.records, me) {
        FairClaimExact(p, me, share);
      }
    }
  }

  /** What a normal packet has paid so far: an equal part each, and the remainder to the first. */
  ghost predicate EvenlyPaid(p: Packet) {
    && p.totalCount >= 1
    && (forall i :: 0 <= i < |p.records| ==>
          p.records[i].amount == p.totalAmount / p.totalCount + if i == 0 then p.totalAmount % p.totalCount else 0)
    && p.remaining == if p.records == [] then p.totalAmount else (p.totalAmount / p.totalCount) * p.remainCount
  }

  lemma AtomicClaimEven(p: Packet, me: User, visible: bool, now: int, draw: nat)
    requires Fair(p) && p.kind == Normal && EvenlyPaid(p)
    ensures EvenlyPaid(ClaimAtomically(p, me, visible, now, draw).0)
  {
    hide EvenShare, LuckyShare;
    var p' := ClaimAtomically(p, me, visible, now, draw).0;
    var base, n := p.totalAmount / p.totalCount, p.remainCount;
    if p'.records != p.records {
      if p.records == [] {
        EvenBounds(p.remaining, n);
      } else {
        assert base >= 1 by {
        }
        EvenRest(base, n);
      }
      forall i | 0 <= i < |p'.records|
        ensures p'.records[i].amount == base + if i == 0 then p.totalAmount % p.totalCount else 0
      {
        assert i < |p.records| ==> p'.records[i] == p.records[i];
      }
    }
  }

  datatype Visit = Visit(me: User, visible: bool, now: int, draw: nat)

  function Visits(p: Packet, visits: seq<Visit>): Packet
    decreases |visits|
  {
    if visits == [] then p
    else Visits(ClaimAtomically(p, visits[0].me, visits[0].visible, visits[0].now, visits[0].draw).0, visits[1..])
  }

  lemma {:induction false} VisitOneMore(p: Packet, visits: seq<Visit>, v: Visit)
    ensures Visits(p, []) == p
    ensures Visits(p, visits + [v]) == ClaimAtomically(Visits(p, visits), v.me, v.visible, v.now, v.draw).0
    decreases |visits|
  {
    hide ClaimAtomically;
    if visits == [] {
      assert [] + [v] == [v] && [v][1..] == [];
    } else {
      assert (visits + [v])[1..] == visits[1..] + [v];
      VisitOneMore(ClaimAtomically(p, visits[0].me, visits[0].visible, visits[0].now, visits[0].draw).0, visits[1..], v);
    }
  }

  /** Over every run of one-step claims: fair throughout, and a normal packet pays the promised amounts. */
  lemma {:induction false} EveryVisitFair(p: Packet, visits: seq<Visit>)
    requires Fair(p)
    ensures Fair(Visits(p, visits))
    ensures p.kind == Normal && EvenlyPaid(p) ==> EvenlyPaid(Visits(p, visits))
    decreases |visits|
  {
    if visits != [] {
      var v := visits[0];
      AtomicClaimFair(p, v.me, v.visible, v.now, v.draw);
      if p.kind == Normal && EvenlyPaid(p) {
        AtomicClaimEven(p, v.me, v.visible, v.now, v.draw);
      }
      EveryVisitFair(ClaimAtomically(p, v.me, v.visible, v.now, v.draw).0, visits[1..]);
    }
  }

  lemma CreatedFair(sender: User, kind: Kind, total: int, count: int, expiredAt: int)
    requires Create(sender, kind, total, count, expiredAt).Some?
    ensures Fair(Create(sender, kind, total, count, expiredAt).value)
    ensures EvenlyPaid(Create(sender, kind, total, count, expiredAt).value)
  {
  }

  /**
   Fairness needs the single step. Of three slots over eight cents, two claimers who both
   read the untouched packet take four each; the packet closes with one slot never served.
   */
  lemma StaleSharesStarve(host: User, ann: User, bob: User, late: User, amount: int)
    requires ann != bob
    ensures
      var p := Packet(host, Normal, 8, 3, 8, 3, Active, Some(100), []);
      var share := EvenShare(p.remaining, p.totalCount - |p.records|);
      var q := Claim(Claim(p, ann, share).0, bob, share).0;
      && Create(host, Normal, 8, 3, 100) == Some(p)
      && Fair(p) && share == 4
      && q.status == Finished && q.remainCount == 1 && q.remaining == 0
      && Claim(q, late, amount).1 == Empty
      && !Fair(q)
  {
    hide Counted, EvenShare;
    var p := Packet(host, Normal, 8, 3, 8, 3, Active, Some(100), []);
    CreatedFair(host, Normal, 8, 3, 100);
    EvenBounds(8, 3);
    var p1 := Claim(p, ann, 4).0;
    assert p1 == Packet(host, Normal, 8, 3, 4, 2, Active, Some(100), [Record(ann, 4)]);
    assert !HasClaimed(p1.records, bob);
  }

  lemma ExpireFair(p: Packet, now: int)
    requires Fair(p)
    ensures Fair(Expire(p, now))
  {
  }

  // ---- the tables ----

  class PacketStore {
    var packets: map<Id, Packet>

    constructor ()
      ensures packets == map[]
    {
      packets := map[];
    }

    ghost predicate AllFair()
      reads this
    {
      forall id :: id in packets ==> Fair(packets[id])
    }

    /** `redpacket.create`. */
    method Open(id: Id, sender: User, kind: Kind, total: int, count: int, expiredAt: int) returns (ok: bool)
      modifies this
      ensures ok <==> id !in old(packets) && 1 <= count <= 200 && count <= total <= 200_000_000
      ensures ok ==> Create(sender, kind, total, count, expiredAt).Some?
                     && packets == old(packets)[id := Create(sender, kind, total, count, expiredAt).value]
      ensures ok ==> id in packets
                     && packets[id] == Packet(sender, kind, total, count, total, count, Active, Some(expiredAt), [])
      ensures !ok ==> packets == old(packets)
      ensures old(AllFair()) ==> AllFair()
    {
      if total <= 0 || total > MAX_AMOUNT || count <= 0 || count > MAX_COUNT {
        return false;
      }
      if total < count || id in packets {
        return false;
      }
      packets := packets[id := Packet(sender, kind, total, count, total, count, Active, Some(expiredAt), [])];
      return true;
    }

    /** The claim transaction: the row is read, checked and rewritten together. */
    method PacketClaim(id: Id, claimer: User, amount: int) returns (reply: Reply)
      modifies this
      ensures id !in old(packets) ==> reply == Missing && packets == old(packets)
      ensures id in old(packets) ==>
                && reply == Claim(old(packets)[id], claimer, amount).1
                && packets == old(packets)[id := Claim(old(packets)[id], claimer, amount).0]
    {
      if id !in packets {
        return Missing;
      }
      var row := packets[id];
      if row.remainCount <= 0 || row.remaining < amount || row.status != Active {
        return Empty;
      }
      if exists r :: r in row.records && r.claimer == claimer {
        return Duplicate;
      }
      var remaining := row.remaining - amount;
      var remainCount := row.remainCount - 1;
      var status := if remainCount <= 0 || remaining <= 0 then Finished else Active;
      packets := packets[id := row.(remaining := remaining, remainCount := remainCount, status := status,
                                    records := row.records + [Record(claimer, amount)])];
      return Claimed(amount);
    }

    /** Closes every active packet that has run out of time. */
    method ExpireIfNeeded(now: int)
      modifies this
      ensures packets == map id | id in old(packets) :: Expire(old(packets)[id], now)
      ensures forall id :: id in old(packets) ==>
                var p := old(packets)[id];
                packets[id] == if p.status == Active && p.expiredAt.Some? && p.expiredAt.value <= now
                               then p.(status := Expired) else p
    {
      var listed := packets;
      var todo := set id | id in listed && listed[id].status == Active
                           && listed[id].expiredAt.Some? && listed[id].expiredAt.value <= now;
      var rows := listed;
      while todo != {}
        invariant todo <= rows.Keys && rows.Keys == listed.Keys
        invariant forall id :: id in rows ==> rows[id] == if id in todo then listed[id] else Expire(listed[id], now)
        invariant forall id :: id in todo ==> Expire(listed[id], now) == listed[id].(status := Expired)
      {
        var id :| id in todo;
        rows := rows[id := rows[id].(status := Expired)];
        todo := todo - {id};
      }
      packets := rows;
    }

    /** `redpacket.claim` with nothing happening between its reads and its transaction. */
    method ClaimShare(id: Id, me: User, visible: bool, now: int, draw: nat) returns (reply: Reply)
      requires AllFair()
      modifies this
      ensures AllFair()
      ensures id in old(packets) ==>
                && id in packets && packets[id] == ClaimAtomically(old(packets)[id], me, visible, now, draw).0
                && reply == ClaimAtomically(old(packets)[id], me, visible, now, draw).1
      ensures id !in old(packets) ==> reply == Missing && packets == old(packets)
      ensures packets.Keys == old(packets).Keys
      ensures forall k :: k in packets && k != id ==>
                            packets[k] == if reply == TooLate then Expire(old(packets)[k], now) else old(packets)[k]
    {
      hide EvenShare, LuckyShare, Counted;
      if id !in packets {
        return Missing;
      }
      var row := packets[id];
      AtomicClaimFair(row, me, visible, now, draw);
      if row.sender == me {
        return OwnPacket;
      }
      if !visible {
        return Hidden;
      }
      if row.expiredAt.Some? && row.expiredAt.value <= now {
        forall k | k in packets
          ensures Fair(Expire(packets[k], now))
        {
          ExpireFair(packets[k], now);
        }
        ExpireIfNeeded(now);
        return TooLate;
      }
      if exists r :: r in row.records && r.claimer == me {
        return Duplicate;
      }
      var left := row.totalCount - |row.records|;
      var share := if row.kind == Lucky then LuckyShare(row.remaining, left, draw) else EvenShare(row.remaining, left);
      if share <= 0 {
        return Empty;
      }
      reply := PacketClaim(id, me, share);
    }
  }
}
