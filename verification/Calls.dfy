/**
 Private calls and group rooms. Where the program takes its lock more than once in a handler,
 each critical section is a method of its own; the handlers run them with nothing in between,
 and the lemmas say exactly what others may do in between.
 */
module Calls {
  import opened Wrappers

  const ROOM_LIMIT: nat := 6

  type Id = string
  type User = string

  datatype Call = Call(from: User, to: User, active: bool)

  datatype Room = Room(group: Id, host: User, members: seq<User>)

  datatype State = State(calls: map<Id, Call>, rooms: map<Id, Room>)

  datatype CallError =
    | NoSuchUser | NotFriends | Busy | PeerBusy | Offline | Gone | NotYours | NotMember | GroupBusy | Full

  predicate InCall(c: Call, u: User) {
    c.from == u || c.to == u
  }

  predicate CallOf(s: State, u: User, id: Id) {
    id in s.calls && InCall(s.calls[id], u)
  }

  predicate RoomOf(s: State, u: User, id: Id) {
    id in s.rooms && u in s.rooms[id].members
  }

  ghost predicate Engaged(s: State, u: User) {
    (exists id :: CallOf(s, u, id)) || (exists id :: RoomOf(s, u, id))
  }

  /** Busy means: at either end of a call, or member of a room. */
  lemma EngagedMeaning(s: State, u: User)
    ensures forall id :: CallOf(s, u, id) <==> id in s.calls && (s.calls[id].from == u || s.calls[id].to == u)
    ensures forall id :: RoomOf(s, u, id) <==> id in s.rooms && u in s.rooms[id].members
    ensures Engaged(s, u) <==>
            || (exists id :: id in s.calls && (s.calls[id].from == u || s.calls[id].to == u))
            || exists id :: id in s.rooms && u in s.rooms[id].members
  {
    if id :| id in s.calls && (s.calls[id].from == u || s.calls[id].to == u) {
      assert CallOf(s, u, id);
    }
    if id :| id in s.rooms && u in s.rooms[id].members {
      assert RoomOf(s, u, id);
    }
  }

  ghost predicate HasRoom(s: State, group: Id) {
    exists id :: id in s.rooms && s.rooms[id].group == group
  }

  ghost predicate RoomSound(r: Room) {
    && 1 <= |r.members| <= ROOM_LIMIT
    && r.host in r.members
    && forall i, j :: 0 <= i < j < |r.members| ==> r.members[i] != r.members[j]
  }

  /** One engagement per user, one room per group, and rooms of one to six distinct members with their host. */
  ghost predicate Sound(s: State) {
    && (forall id :: id in s.calls ==> s.calls[id].from != s.calls[id].to)
    && (forall id :: id in s.rooms ==> RoomSound(s.rooms[id]))
    && (forall u, a, b :: CallOf(s, u, a) && CallOf(s, u, b) ==> a == b)
    && (forall u, a, b :: RoomOf(s, u, a) && RoomOf(s, u, b) ==> a == b)
    && (forall u, a, b :: CallOf(s, u, a) ==> !RoomOf(s, u, b))
    && (forall a, b :: a in s.rooms && b in s.rooms && s.rooms[a].group == s.rooms[b].group ==> a == b)
  }

  function WithCall(s: State, id: Id, c: Call): State {
    s.(calls := s.calls[id := c])
  }

  function WithRoom(s: State, id: Id, r: Room): State {
    s.(rooms := s.rooms[id := r])
  }

  function WithoutCall(s: State, id: Id): State {
    s.(calls := s.calls - {id})
  }

  function WithoutRoom(s: State, id: Id): State {
    s.(rooms := s.rooms - {id})
  }

  /** Inserting a call is safe exactly when both ends are free at the moment of insertion. */
  lemma InsertCallExact(s: State, id: Id, from: User, to: User)
    requires Sound(s) && id !in s.calls
    ensures Sound(WithCall(s, id, Call(from, to, false))) <==> from != to && !Engaged(s, from) && !Engaged(s, to)
  {
    var s' := WithCall(s, id, Call(from, to, false));
    assert CallOf(s', from, id) && CallOf(s', to, id);
    forall u, k
      ensures CallOf(s', u, k) <==> CallOf(s, u, k) || (k == id && (u == from || u == to))
      ensures RoomOf(s', u, k) == RoomOf(s, u, k)
    {
    }
  }

  /** Opening a room is safe exactly when the host is free and the group has none, at the moment of insertion. */
  lemma InsertRoomExact(s: State, id: Id, group: Id, host: User)
    requires Sound(s) && id !in s.rooms
    ensures Sound(WithRoom(s, id, Room(group, host, [host]))) <==> !Engaged(s, host) && !HasRoom(s, group)
  {
    var s' := WithRoom(s, id, Room(group, host, [host]));
    assert RoomOf(s', host, id);
    forall u, k
      ensures RoomOf(s', u, k) <==> RoomOf(s, u, k) || (k == id && u == host)
      ensures CallOf(s', u, k) == CallOf(s, u, k)
    {
    }
    if k :| k in s.rooms && s.rooms[k].group == group {
      assert s'.rooms[k].group == s'.rooms[id].group;
    }
  }

  lemma JoinRoomExact(r: Room, u: User)
    requires RoomSound(r)
    ensures RoomSound(r.(members := r.members + [u])) <==> u !in r.members && |r.members| < ROOM_LIMIT
  {
    var r' := r.(members := r.members + [u]);
    if i :| 0 <= i < |r.members| && r.members[i] == u {
      assert r'.members[i] == r'.members[|r.members|];
    }
  }

  /** The same for one more member of a room. */
  lemma JoinExact(s: State, id: Id, u: User)
    requires Sound(s) && id in s.rooms
    ensures
      var r := s.rooms[id];
      Sound(WithRoom(s, id, r.(members := r.members + [u]))) <==> !Engaged(s, u) && |r.members| < ROOM_LIMIT
  {
    hide RoomSound;
    var r := s.rooms[id];
    var s' := WithRoom(s, id, r.(members := r.members + [u]));
    JoinRoomExact(r, u);
    assert s'.rooms[id].members[|r.members|] == u;
    assert RoomOf(s', u, id) && RoomOf(s, u, id) == (u in r.members);
    forall v, k
      ensures RoomOf(s', v, k) <==> RoomOf(s, v, k) || (k == id && v == u)
      ensures CallOf(s', v, k) == CallOf(s, v, k)
    {
    }
  }

  /**
   Two people ring the same third one. Each passes its check before either inserts; the first
   insertion is fine, the second one puts the third person into two calls.
   */
  lemma CrossedInvites(s: State, i: Id, j: Id, ann: User, bob: User, cid: User)
    requires Sound(s) && i !in s.calls && j !in s.calls && i != j
    requires ann != bob && cid != bob && ann != cid && !Engaged(s, ann) && !Engaged(s, bob) && !Engaged(s, cid)
    ensures Sound(WithCall(s, i, Call(ann, bob, false)))
    ensures !Sound(WithCall(WithCall(s, i, Call(ann, bob, false)), j, Call(cid, bob, false)))
  {
    InsertCallExact(s, i, ann, bob);
    var s' := WithCall(s, i, Call(ann, bob, false));
    assert CallOf(s', bob, i);
    hide Sound;
    InsertCallExact(s', j, cid, bob);
  }

  /** The state has room for `r` under `id`: its members are in nothing else, and its group has no other room. */
  ghost predicate HasPlace(s: State, id: Id, r: Room) {
    && (forall v, k :: v in r.members ==> !CallOf(s, v, k) && (k != id ==> !RoomOf(s, v, k)))
    && (forall k :: k in s.rooms && k != id ==> s.rooms[k].group != r.group)
  }

  /**
   Joining and the refused end of a room write back a whole room read earlier. For any such
   room, however old, and whatever stands under its id by now: the write is safe exactly when
   the room still has its place at that moment.
   */
  lemma WriteBackExact(s: State, id: Id, r: Room)
    requires Sound(s)
    ensures Sound(WithRoom(s, id, r)) <==> RoomSound(r) && HasPlace(s, id, r)
  {
    hide RoomSound;
    var s' := WithRoom(s, id, r);
    forall v, k
      ensures RoomOf(s', v, k) <==> if k == id then v in r.members else RoomOf(s, v, k)
      ensures CallOf(s', v, k) == CallOf(s, v, k)
    {
    }
    if Sound(s') {
      forall v, k | v in r.members
        ensures !CallOf(s, v, k) && (k != id ==> !RoomOf(s, v, k))
      {
        assert RoomOf(s', v, id);
      }
      forall k | k in s.rooms && k != id
        ensures s.rooms[k].group != r.group
      {
        assert s'.rooms[k] == s.rooms[k] && s'.rooms[id].group == r.group;
      }
    }
  }

  /** With an up-to-date room the condition is the one for a join in one step. */
  lemma WriteBackCurrent(s: State, id: Id, u: User)
    requires Sound(s) && id in s.rooms
    ensures
      var r' := s.rooms[id].(members := s.rooms[id].members + [u]);
      RoomSound(r') && HasPlace(s, id, r') <==> !Engaged(s, u) && |s.rooms[id].members| < ROOM_LIMIT
  {
    WriteBackExact(s, id, s.rooms[id].(members := s.rooms[id].members + [u]));
    JoinExact(s, id, u);
  }

  /** Two people join at once from the same reading of the room: the one who writes first is dropped again. */
  lemma SecondJoinDropsFirst(s: State, id: Id, ann: User, bob: User)
    requires Sound(s) && id in s.rooms && |s.rooms[id].members| < ROOM_LIMIT
    requires ann != bob && !Engaged(s, ann) && !Engaged(s, bob)
    ensures
      var r := s.rooms[id];
      var once := WithRoom(s, id, r.(members := r.members + [ann]));
      var twice := WithRoom(once, id, r.(members := r.members + [bob]));
      Sound(once) && Sound(twice) && RoomOf(once, ann, id) && !Engaged(twice, ann)
  {
    hide Sound, RoomSound, Engaged;
    var r := s.rooms[id];
    var once := WithRoom(s, id, r.(members := r.members + [ann]));
    JoinExact(s, id, ann);
    JoinExact(s, id, bob);
    assert once.rooms[id].members[|r.members|] == ann;
    var twice := WithRoom(once, id, r.(members := r.members + [bob]));
    assert twice == WithRoom(s, id, r.(members := r.members + [bob]));
    NewcomerElsewhere(s, id, ann, bob);
  }

  lemma NewcomerElsewhere(s: State, id: Id, ann: User, bob: User)
    requires id in s.rooms && ann != bob && !Engaged(s, ann)
    ensures !Engaged(WithRoom(s, id, s.rooms[id].(members := s.rooms[id].members + [bob])), ann)
  {
    var s' := WithRoom(s, id, s.rooms[id].(members := s.rooms[id].members + [bob]));
    forall k
      ensures !CallOf(s', ann, k) && !RoomOf(s', ann, k)
    {
      assert !CallOf(s, ann, k) && !RoomOf(s, ann, k);
    }
  }

  lemma RemoveKeepsSound(s: State, id: Id)
    requires Sound(s)
    ensures Sound(WithoutCall(s, id)) && Sound(WithoutRoom(s, id))
  {
    forall u, k
      ensures CallOf(WithoutCall(s, id), u, k) ==> CallOf(s, u, k)
      ensures RoomOf(WithoutCall(s, id), u, k) == RoomOf(s, u, k)
      ensures RoomOf(WithoutRoom(s, id), u, k) ==> RoomOf(s, u, k)
      ensures CallOf(WithoutRoom(s, id), u, k) == CallOf(s, u, k)
    {
    }
  }

  lemma AnswerKeepsSound(s: State, id: Id)
    requires Sound(s) && id in s.calls
    ensures Sound(WithCall(s, id, s.calls[id].(active := true)))
  {
    var s' := WithCall(s, id, s.calls[id].(active := true));
    forall u, k
      ensures CallOf(s', u, k) == CallOf(s, u, k) && RoomOf(s', u, k) == RoomOf(s, u, k)
    {
    }
  }

  /** Everybody but `u`, in order. */
  function Leaving(members: seq<User>, u: User): (rest: seq<User>)
    ensures forall v :: v in rest <==> v in members && v != u
    ensures |rest| <= |members|
  {
    if members == [] then []
    else if members[0] == u then Leaving(members[1..], u)
    else [members[0]] + Leaving(members[1..], u)
  }

  lemma {:induction false} LeavingDistinct(members: seq<User>, u: User)
    requires forall i, j :: 0 <= i < j < |members| ==> members[i] != members[j]
    ensures forall i, j :: 0 <= i < j < |Leaving(members, u)| ==> Leaving(members, u)[i] != Leaving(members, u)[j]
  {
    if members != [] {
      LeavingDistinct(members[1..], u);
      var rest := Leaving(members[1..], u);
      forall j | 0 <= j < |rest|
        ensures rest[j] != members[0]
      {
        assert rest[j] in rest;
        var k :| 0 <= k < |members[1..]| && members[1..][k] == rest[j];
        assert members[k + 1] == rest[j];
      }
    }
  }

  /** Among distinct members exactly one place is given up. */
  lemma {:induction false} LeavingAt(members: seq<User>, u: User, at: nat)
    requires forall i, j :: 0 <= i < j < |members| ==> members[i] != members[j]
    requires at < |members| && members[at] == u
    ensures Leaving(members, u) == members[..at] + members[at + 1..]
  {
    if at == 0 {
      LeavingNobody(members[1..], u);
    } else {
      LeavingAt(members[1..], u, at - 1);
      assert members[..at] == [members[0]] + members[1..][..at - 1];
      assert members[1..][at..] == members[at + 1..];
    }
  }

  lemma {:induction false} LeavingNobody(members: seq<User>, u: User)
    requires u !in members
    ensures Leaving(members, u) == members
  {
    if members != [] {
      LeavingNobody(members[1..], u);
    }
  }

  /** What striking a user leaves of the members of a room. */
  lemma Struck(r: Room, u: User)
    requires RoomSound(r)
    ensures u !in r.members ==> Leaving(r.members, u) == r.members
    ensures forall i :: 0 <= i < |r.members| && r.members[i] == u ==>
                          Leaving(r.members, u) == r.members[..i] + r.members[i + 1..]
  {
    if u !in r.members {
      LeavingNobody(r.members, u);
    }
    forall i | 0 <= i < |r.members| && r.members[i] == u
      ensures Leaving(r.members, u) == r.members[..i] + r.members[i + 1..]
    {
      LeavingAt(r.members, u, i);
    }
  }

  /** Striking a user keeps the state valid exactly if the user is not the host. */
  lemma RetainExact(s: State, id: Id, u: User)
    requires Sound(s) && id in s.rooms
    ensures Sound(WithRoom(s, id, s.rooms[id].(members := Leaving(s.rooms[id].members, u)))) <==> s.rooms[id].host != u
  {
    var s' := WithRoom(s, id, s.rooms[id].(members := Leaving(s.rooms[id].members, u)));
    if s.rooms[id].host != u {
      LeaveKeepsSound(s, id, u);
    } else {
      assert s'.rooms[id].host !in s'.rooms[id].members;
    }
  }

  lemma LeaveKeepsSound(s: State, id: Id, u: User)
    requires Sound(s) && id in s.rooms && s.rooms[id].host != u
    ensures Sound(WithRoom(s, id, s.rooms[id].(members := Leaving(s.rooms[id].members, u))))
  {
    var r := s.rooms[id];
    var r' := r.(members := Leaving(r.members, u));
    var s' := WithRoom(s, id, r');
    LeavingDistinct(r.members, u);
    assert r.host in r'.members;
    forall v, k
      ensures RoomOf(s', v, k) ==> RoomOf(s, v, k)
      ensures CallOf(s', v, k) == CallOf(s, v, k)
    {
    }
  }

  /** First-match lookups have at most one candidate, and never both a call and a room. */
  lemma LookupsUnambiguous(s: State, u: User, group: Id)
    requires Sound(s)
    ensures forall a, b :: CallOf(s, u, a) && CallOf(s, u, b) ==> a == b
    ensures forall a, b :: RoomOf(s, u, a) && RoomOf(s, u, b) ==> a == b
    ensures !((exists a :: CallOf(s, u, a)) && (exists b :: RoomOf(s, u, b)))
    ensures forall a, b :: a in s.rooms && b in s.rooms && s.rooms[a].group == group == s.rooms[b].group ==> a == b
  {
  }

  class ScreenState {
    var calls: map<Id, Call>
    var rooms: map<Id, Room>

    ghost function View(): State
      reads this
    {
      State(calls, rooms)
    }

    ghost predicate Valid()
      reads this
    {
      Sound(View())
    }

    constructor ()
      ensures Valid() && View() == State(map[], map[])
    {
      calls, rooms := map[], map[];
    }

    /** The table is searched in no particular order; the answer does not depend on it. */
    method FindCall(u: User) returns (found: Option<Id>)
      requires Valid()
      ensures forall id :: found == Some(id) <==> CallOf(View(), u, id)
    {
      ghost var s := View();
      LookupsUnambiguous(s, u, "");
      hide Sound;
      found := None;
      var todo := calls.Keys;
      while todo != {}
        invariant View() == s
        invariant forall id :: CallOf(View(), u, id) ==> id in todo
        decreases todo
      {
        var id :| id in todo;
        if id in calls && InCall(calls[id], u) {
          assert CallOf(s, u, id);
          return Some(id);
        }
        todo := todo - {id};
      }
    }

    method FindRoom(u: User) returns (found: Option<Id>)
      requires Valid()
      ensures forall id :: found == Some(id) <==> RoomOf(View(), u, id)
    {
      ghost var s := View();
      LookupsUnambiguous(s, u, "");
      hide Sound;
      found := None;
      var todo := rooms.Keys;
      while todo != {}
        invariant View() == s
        invariant forall id :: RoomOf(View(), u, id) ==> id in todo
        decreases todo
      {
        var id :| id in todo;
        if id in rooms && u in rooms[id].members {
          assert RoomOf(s, u, id);
          return Some(id);
        }
        todo := todo - {id};
      }
    }

    method FindGroupRoom(group: Id) returns (found: Option<Id>)
      requires Valid()
      ensures forall id :: found == Some(id) <==> id in rooms && rooms[id].group == group
    {
      ghost var s := View();
      LookupsUnambiguous(s, "", group);
      hide Sound;
      found := None;
      var todo := rooms.Keys;
      while todo != {}
        invariant View() == s
        invariant forall id :: id in rooms && rooms[id].group == group ==> id in todo
        decreases todo
      {
        var id :| id in todo;
        if id in rooms && rooms[id].group == group {
          assert s.rooms[id].group == group;
          return Some(id);
        }
        todo := todo - {id};
      }
    }

    method IsEngaged(u: User) returns (engaged: bool)
      requires Valid()
      ensures engaged <==> Engaged(View(), u)
    {
      var call := FindCall(u);
      if call.Some? {
        return true;
      }
      var room := FindRoom(u);
      return room.Some?;
    }

    /** The first critical section of an invitation. */
    method InviteCheck(me: User, peer: User) returns (r: Result<(), CallError>)
      requires Valid()
      ensures r.Ok? <==> !Engaged(View(), me) && !Engaged(View(), peer)
      ensures r == Err(Busy) <==> Engaged(View(), me)
      ensures r.Err? && r != Err(Busy) ==> r == Err(PeerBusy)
    {
      var busy := IsEngaged(me);
      if busy {
        return Err(Busy);
      }
      var peerBusy := IsEngaged(peer);
      if peerBusy {
        return Err(PeerBusy);
      }
      return Ok(());
    }

    /** The second one, whatever has happened since the first; `id` is a fresh random id. */
    method InviteInsert(id: Id, me: User, peer: User)
      requires Valid() && id !in calls
      modifies this`calls
      ensures calls == old(calls)[id := Call(me, peer, false)]
      ensures Valid() <==> me != peer && !Engaged(old(View()), me) && !Engaged(old(View()), peer)
    {
      InsertCallExact(View(), id, me, peer);
      calls := calls[id := Call(me, peer, false)];
    }

    /** `screen.invite` with nothing happening between its two critical sections. */
    method Invite(id: Id, me: User, peer: User, friends: bool, online: bool) returns (r: Result<Id, CallError>)
      requires Valid() && id !in calls
      modifies this`calls
      ensures Valid()
      ensures r.Ok? <==> me != peer && friends && online && !Engaged(old(View()), me) && !Engaged(old(View()), peer)
      ensures calls == if r.Ok? then old(calls)[id := Call(me, peer, false)] else old(calls)
      ensures r.Ok? ==> r.value == id
      ensures me == peer ==> r == Err(NoSuchUser)
      ensures me != peer ==> (r == Err(NotFriends) <==> !friends)
      ensures me != peer && friends ==> (r == Err(Busy) <==> Engaged(old(View()), me))
      ensures me != peer && friends && !Engaged(old(View()), me) ==> (r == Err(PeerBusy) <==> Engaged(old(View()), peer))
    {
      hide Sound;
      if peer == me {
        return Err(NoSuchUser);
      }
      if !friends {
        return Err(NotFriends);
      }
      var checked := InviteCheck(me, peer);
      if checked.Err? {
        return Err(checked.error);
      }
      if !online {
        return Err(Offline);
      }
      InviteInsert(id, me, peer);
      return Ok(id);
    }

    /** `screen.accept`: only the callee. */
    method Accept(me: User, id: Id) returns (r: Result<(), CallError>)
      requires Valid()
      modifies this`calls
      ensures Valid()
      ensures r.Ok? <==> id in old(calls) && old(calls)[id].to == me
      ensures r.Err? ==> r == Err(Gone)
      ensures calls == if r.Ok? then old(calls)[id := Call(old(calls)[id].from, me, true)] else old(calls)
    {
      if id !in calls {
        return Err(Gone);
      }
      if calls[id].to != me {
        return Err(Gone);
      }
      AnswerKeepsSound(View(), id);
      calls := calls[id := calls[id].(active := true)];
      return Ok(());
    }

    /** `screen.decline` and `screen.hangup` treat the table alike: either party removes the call. */
    method EndCall(me: User, id: Id) returns (r: Result<(), CallError>)
      requires Valid()
      modifies this`calls
      ensures Valid()
      ensures r.Ok? <==> id !in old(calls) || old(calls)[id].from == me || old(calls)[id].to == me
      ensures calls == if r.Ok? then old(calls) - {id} else old(calls)
      ensures r.Err? ==> r == Err(NotYours)
    {
      if id !in calls {
        assert calls - {id} == calls;
        return Ok(());
      }
      if calls[id].from != me && calls[id].to != me {
        return Err(NotYours);
      }
      RemoveKeepsSound(View(), id);
      calls := calls - {id};
      return Ok(());
    }

    /** The first critical section of the ring timer. */
    method RingCheck(id: Id) returns (stillThere: bool)
      ensures stillThere <==> id in calls && !calls[id].active
    {
      return id in calls && !calls[id].active;
    }

    /**
     The second one, and the removal of the offline clean-up: the call goes without another
     look, answered in between or not.
     */
    method RemoveCall(id: Id)
      requires Valid()
      modifies this`calls
      ensures Valid() && calls == old(calls) - {id}
    {
      RemoveKeepsSound(View(), id);
      calls := calls - {id};
    }

    /** The ring timer with nothing happening between its two critical sections. */
    method RingTimeout(id: Id)
      requires Valid()
      modifies this`calls
      ensures Valid()
      ensures calls == if id in old(calls) && !old(calls)[id].active then old(calls) - {id} else old(calls)
    {
      var stillThere := RingCheck(id);
      if stillThere {
        RemoveCall(id);
      }
    }

    /** The first critical section of starting a room. */
    method StartCheck(me: User, group: Id) returns (r: Result<(), CallError>)
      requires Valid()
      ensures r.Ok? <==> !Engaged(View(), me) && !HasRoom(View(), group)
      ensures r.Err? ==> r == if Engaged(View(), me) then Err(Busy) else Err(GroupBusy)
    {
      var busy := IsEngaged(me);
      if busy {
        return Err(Busy);
      }
      var running := FindGroupRoom(group);
      if running.Some? {
        assert running == Some(running.value);
        return Err(GroupBusy);
      }
      return Ok(());
    }

    /** The second one, whatever has happened since the first; `id` is a fresh random id. */
    method StartInsert(id: Id, me: User, group: Id)
      requires Valid() && id !in rooms
      modifies this`rooms
      ensures rooms == old(rooms)[id := Room(group, me, [me])]
      ensures Valid() <==> !Engaged(old(View()), me) && !HasRoom(old(View()), group)
    {
      InsertRoomExact(View(), id, group, me);
      rooms := rooms[id := Room(group, me, [me])];
    }

    /** `call.group.start` in one go; `member` is the outcome of the group check. */
    method GroupStart(id: Id, me: User, group: Id, member: bool) returns (r: Result<Id, CallError>)
      requires Valid() && id !in rooms
      modifies this`rooms
      ensures Valid()
      ensures r.Ok? <==> member && !Engaged(old(View()), me) && !HasRoom(old(View()), group)
      ensures rooms == if r.Ok? then old(rooms)[id := Room(group, me, [me])] else old(rooms)
      ensures r.Ok? ==> r.value == id
      ensures r.Err? ==> r == if !member then Err(NotMember)
                              else if Engaged(old(View()), me) then Err(Busy) else Err(GroupBusy)
    {
      hide Sound;
      if !member {
        return Err(NotMember);
      }
      var checked := StartCheck(me, group);
      if checked.Err? {
        return Err(checked.error);
      }
      StartInsert(id, me, group);
      return Ok(id);
    }

    /** The second critical section of a join: neither in a call nor in another room. */
    method JoinCheck(me: User, id: Id) returns (free: bool)
      requires Valid()
      ensures free <==> (forall k :: !CallOf(View(), me, k)) && (forall k :: RoomOf(View(), me, k) ==> k == id)
    {
      var call := FindCall(me);
      if call.Some? {
        assert call == Some(call.value);
        return false;
      }
      var current := FindRoom(me);
      assert current.Some? ==> RoomOf(View(), me, current.value);
      return current.None? || current.value == id;
    }

    /**
     The last critical section: a room as it was at some earlier time, enlarged or not, is
     written over whatever stands under its id by now.
     */
    method WriteBack(id: Id, room: Room)
      requires Valid()
      modifies this`rooms
      ensures rooms == old(rooms)[id := room]
      ensures Valid() <==> RoomSound(room) && HasPlace(old(View()), id, room)
    {
      WriteBackExact(View(), id, room);
      rooms := rooms[id := room];
    }

    /** `call.group.join` with nothing happening between its critical sections. */
    method GroupJoin(me: User, id: Id, member: bool) returns (r: Result<(), CallError>)
      requires Valid()
      modifies this`rooms
      ensures Valid()
      ensures r.Ok? <==> id in old(rooms) && member
                         && (me in old(rooms)[id].members
                             || (!Engaged(old(View()), me) && |old(rooms)[id].members| < 6))
      ensures rooms == if r.Ok? && me !in old(rooms)[id].members
                       then old(rooms)[id := Room(old(rooms)[id].group, old(rooms)[id].host,
                                                  old(rooms)[id].members + [me])]
                       else old(rooms)
      ensures r.Err? ==> r == if id !in old(rooms) then Err(Gone) else if !member then Err(NotMember)
                              else if Engaged(old(View()), me) then Err(Busy) else Err(Full)
    {
      if id !in rooms {
        return Err(Gone);
      }
      var room := rooms[id];
      if !member {
        return Err(NotMember);
      }
      LookupsUnambiguous(View(), me, room.group);
      WriteBackCurrent(View(), id, me);
      hide Sound, RoomSound, HasPlace;
      assert me in room.members ==> RoomOf(View(), me, id);
      var free := JoinCheck(me, id);
      if !free {
        return Err(Busy);
      }
      if me !in room.members {
        if |room.members| >= ROOM_LIMIT {
          return Err(Full);
        }
        WriteBack(id, room.(members := room.members + [me]));
      }
      return Ok(());
    }

    /** `call.group.leave`: the host takes the room along. */
    method GroupLeave(me: User, id: Id)
      requires Valid()
      modifies this`rooms
      ensures Valid()
      ensures id !in old(rooms) || me !in old(rooms)[id].members ==> rooms == old(rooms)
      ensures id in old(rooms) && old(rooms)[id].host == me ==> rooms == old(rooms) - {id}
      ensures forall i :: (&& id in old(rooms) && old(rooms)[id].host != me
                           && 0 <= i < |old(rooms)[id].members| && old(rooms)[id].members[i] == me) ==>
                            var r := old(rooms)[id];
                            rooms == old(rooms)[id := Room(r.group, r.host, r.members[..i] + r.members[i + 1..])]
    {
      if id !in rooms {
        return;
      }
      var room := rooms[id];
      if me !in room.members {
        return;
      }
      var left := room.(members := Leaving(room.members, me));
      Struck(room, me);
      if room.host != me {
        LeaveKeepsSound(View(), id, me);
        assert room.host in left.members;
      }
      RemoveKeepsSound(View(), id);
      if left.host == me || left.members == [] {
        rooms := rooms - {id};
      } else {
        rooms := rooms[id := left];
      }
    }

    /** The first critical section of ending a room: it is taken out before anything is checked. */
    method TakeRoom(id: Id) returns (taken: Option<Room>)
      requires Valid()
      modifies this`rooms
      ensures Valid() && rooms == old(rooms) - {id}
      ensures taken == if id in old(rooms) then Some(old(rooms)[id]) else None
    {
      taken := if id in rooms then Some(rooms[id]) else None;
      RemoveKeepsSound(View(), id);
      rooms := rooms - {id};
    }

    /** `call.group.end`: taken out, and put back when the caller is not the host, with nothing in between. */
    method GroupEnd(me: User, id: Id) returns (r: Result<(), CallError>)
      requires Valid()
      modifies this`rooms
      ensures Valid()
      ensures r.Ok? <==> id !in old(rooms) || old(rooms)[id].host == me
      ensures rooms == if r.Ok? then old(rooms) - {id} else old(rooms)
      ensures r.Err? ==> r == Err(NotYours)
    {
      ghost var before := View();
      var taken := TakeRoom(id);
      if taken.None? {
        return Ok(());
      }
      var room := taken.value;
      if room.host != me {
        assert WithRoom(View(), id, room) == before;
        WriteBackExact(View(), id, room);
        WriteBack(id, room);
        return Err(NotYours);
      }
      return Ok(());
    }

    /**
     The last critical section of the offline clean-up, for a room found earlier: the user is
     struck from the room as it is by now, if it is still there.
     */
    method Retain(id: Id, u: User)
      requires Valid()
      modifies this`rooms
      ensures id !in old(rooms) ==> rooms == old(rooms)
      ensures id in old(rooms) && u !in old(rooms)[id].members ==> rooms == old(rooms)
      ensures forall i :: id in old(rooms) && 0 <= i < |old(rooms)[id].members| && old(rooms)[id].members[i] == u ==>
                            var r := old(rooms)[id];
                            rooms == old(rooms)[id := Room(r.group, r.host, r.members[..i] + r.members[i + 1..])]
      ensures Valid() <==> !(id in old(rooms) && old(rooms)[id].host == u)
    {
      if id in rooms {
        RetainExact(View(), id, u);
        Struck(rooms[id], u);
        rooms := rooms[id := rooms[id].(members := Leaving(rooms[id].members, u))];
      }
    }

    /** A user whose last connection is gone leaves the call and the room; nothing else changes. */
    method CleanupOffline(u: User)
      requires Valid()
      modifies this`calls, this`rooms
      ensures Valid() && !Engaged(View(), u)
      ensures (forall id :: id in old(calls) ==> old(calls)[id].from != u && old(calls)[id].to != u) ==>
                calls == old(calls)
      ensures forall id :: id in old(calls) && (old(calls)[id].from == u || old(calls)[id].to == u) ==>
                             calls == old(calls) - {id}
      ensures (forall id :: id in old(rooms) ==> u !in old(rooms)[id].members) ==> rooms == old(rooms)
      ensures forall id :: id in old(rooms) && old(rooms)[id].host == u ==> rooms == old(rooms) - {id}
      ensures forall id, i :: (&& id in old(rooms) && old(rooms)[id].host != u
                               && 0 <= i < |old(rooms)[id].members| && old(rooms)[id].members[i] == u) ==>
                                var r := old(rooms)[id];
                                rooms == old(rooms)[id := Room(r.group, r.host, r.members[..i] + r.members[i + 1..])]
    {
      hide Sound;
      LeaveCall(u);
      ghost var called := calls;
      assert forall id :: RoomOf(View(), u, id) <==> RoomOf(old(View()), u, id);
      LeaveRoom(u);
      assert calls == called;
    }

    /** The call half: the only call of the user is removed. */
    method LeaveCall(u: User)
      requires Valid()
      modifies this`calls
      ensures Valid()
      ensures forall id :: id in calls ==> !InCall(calls[id], u)
      ensures (forall id :: id in old(calls) ==> old(calls)[id].from != u && old(calls)[id].to != u) ==>
                calls == old(calls)
      ensures forall id :: id in old(calls) && (old(calls)[id].from == u || old(calls)[id].to == u) ==>
                             calls == old(calls) - {id}
    {
      ghost var before := View();
      LookupsUnambiguous(before, u, "");
      RemoveKeepsNothingElse(before, u);
      hide Sound;
      var call := FindCall(u);
      assert View() == before;
      if call.Some? {
        RemoveCall(call.value);
      }
      forall id | id in calls
        ensures !InCall(calls[id], u)
      {
        assert CallOf(before, u, id) == InCall(calls[id], u);
      }
    }

    /** The room half: the host takes the room along, anybody else only leaves. */
    method LeaveRoom(u: User)
      requires Valid()
      modifies this`rooms
      ensures Valid()
      ensures forall id :: id in rooms ==> u !in rooms[id].members
      ensures (forall id :: id in old(rooms) ==> u !in old(rooms)[id].members) ==> rooms == old(rooms)
      ensures forall id :: id in old(rooms) && old(rooms)[id].host == u ==> rooms == old(rooms) - {id}
      ensures forall id, i :: (&& id in old(rooms) && old(rooms)[id].host != u
                               && 0 <= i < |old(rooms)[id].members| && old(rooms)[id].members[i] == u) ==>
                                var r := old(rooms)[id];
                                rooms == old(rooms)[id := Room(r.group, r.host, r.members[..i] + r.members[i + 1..])]
    {
      ghost var before := View();
      LookupsUnambiguous(before, u, "");
      var room := FindRoom(u);
      assert View() == before;
      if room.None? {
        forall id | id in rooms
          ensures u !in rooms[id].members
        {
          assert !RoomOf(before, u, id);
        }
        return;
      }
      var id := room.value;
      var r := rooms[id];
      var end := r.host == u || |r.members| <= 1;
      RemoveKeepsSound(before, id);
      OnlyRoom(before, u, id);
      hide Sound, Leaving;
      if end {
        rooms := rooms - {id};
        return;
      }
      Retain(id, u);
    }
  }

  lemma RemoveKeepsNothingElse(s: State, u: User)
    requires Sound(s)
    ensures forall a, b :: CallOf(s, u, a) && b in s.calls && b != a ==> !InCall(s.calls[b], u)
  {
    forall a, b | CallOf(s, u, a) && b in s.calls && b != a
      ensures !InCall(s.calls[b], u)
    {
      assert !CallOf(s, u, b);
    }
  }

  lemma OnlyRoom(s: State, u: User, id: Id)
    requires Sound(s) && RoomOf(s, u, id)
    ensures forall k :: k in s.rooms && k != id ==> u !in s.rooms[k].members
  {
    forall k | k in s.rooms && k != id
      ensures u !in s.rooms[k].members
    {
      assert !RoomOf(s, u, k);
    }
  }
}
