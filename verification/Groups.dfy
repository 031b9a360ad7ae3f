/**
 Chat groups: the owner column of the group row and the roles in the member rows are written
 separately, yet always tell the same story.
 */
module Groups {
  import opened Wrappers

  type Id = string
  type User = string

  const ADD_LIMIT: nat := 100

  datatype Role = Owner | Admin | Member

  datatype Group = Group(owner: User, members: map<User, Role>)

  datatype GroupError = NoGroup | NotIn | NotAllowed | IsOwner | NoUser | Handled | SelfTransfer

  /** Exactly one member has the owner role, and it is the one the group row names. */
  ghost predicate OneOwner(g: Group) {
    forall u :: u in g.members && g.members[u] == Owner <==> u == g.owner
  }

  // ---- the single statements ----

  function AddMember(g: Group, u: User): Group {
    if u in g.members then g else g.(members := g.members[u := Member])
  }

  function RemoveMember(g: Group, u: User): Group {
    g.(members := g.members - {u})
  }

  /** An UPDATE: without a matching row nothing happens. */
  function SetRole(g: Group, u: User, role: Role): Group {
    if u in g.members then g.(members := g.members[u := role]) else g
  }

  function SetOwner(g: Group, u: User): Group {
    g.(owner := u)
  }

  /** Members added one by one, up to the first name nobody has. */
  function AddKnown(g: Group, found: seq<Option<User>>): Group
    decreases |found|
  {
    if found == [] || found[0].None? then g else AddKnown(AddMember(g, found[0].value), found[1..])
  }

  predicate AllKnown(found: seq<Option<User>>) {
    forall k :: 0 <= k < |found| ==> found[k].Some?
  }

  /**
   Adding touches nobody who is in already and brings exactly the names before the first
   unknown one, all as plain members.
   */
  lemma {:induction false} AddKnownMeaning(g: Group, found: seq<Option<User>>, u: User)
    requires OneOwner(g)
    ensures OneOwner(AddKnown(g, found)) && AddKnown(g, found).owner == g.owner
    ensures u in g.members ==> u in AddKnown(g, found).members && AddKnown(g, found).members[u] == g.members[u]
    ensures u !in g.members ==>
              (u in AddKnown(g, found).members <==>
               exists k :: 0 <= k < |found| && found[k] == Some(u) && AllKnown(found[..k]))
    ensures u !in g.members && u in AddKnown(g, found).members ==> AddKnown(g, found).members[u] == Member
    decreases |found|
  {
    if found != [] && found[0].Some? {
      var rest := found[1..];
      StatementsExact(g, found[0].value, Member);
      AddKnownMeaning(AddMember(g, found[0].value), rest, u);
      if k :| 0 <= k < |rest| && rest[k] == Some(u) && AllKnown(rest[..k]) {
        assert found[k + 1] == Some(u) && found[..k + 1] == [found[0]] + rest[..k];
      }
      if k :| 0 <= k < |found| && found[k] == Some(u) && AllKnown(found[..k]) {
        assert k > 0 ==> rest[k - 1] == Some(u) && rest[..k - 1] == found[..k][1..];
        assert found[..0] == [];
      }
    } else {
      forall k | 0 < k < |found|
        ensures !AllKnown(found[..k])
      {
        assert found[..k][0].None?;
      }
    }
  }

  /** Handing over ownership takes all three statements; the first two alone leave it inconsistent. */
  lemma TransferNeedsAllSteps(g: Group, me: User, target: User)
    requires OneOwner(g) && g.owner == me && target in g.members && target != me
    ensures OneOwner(SetRole(SetRole(SetOwner(g, target), target, Owner), me, Admin))
    ensures !OneOwner(SetOwner(g, target))
    ensures !OneOwner(SetRole(SetOwner(g, target), target, Owner))
  {
    assert me in g.members && g.members[me] == Owner;
    var handed := SetRole(SetOwner(g, target), target, Owner);
    assert me in handed.members && handed.members[me] == Owner && handed.owner != me;
    var named := SetOwner(g, target);
    assert me in named.members && named.members[me] == Owner;
  }

  /** Which single statements keep the two stories together. */
  lemma StatementsExact(g: Group, u: User, role: Role)
    requires OneOwner(g)
    ensures OneOwner(AddMember(g, u))
    ensures OneOwner(RemoveMember(g, u)) <==> u != g.owner
    ensures OneOwner(SetRole(g, u, role)) <==> u !in g.members || (role == Owner <==> u == g.owner)
    ensures OneOwner(SetOwner(g, u)) <==> u == g.owner
  {
    assert g.owner in g.members && g.members[g.owner] == Owner;
    var removed, set_, named := RemoveMember(g, u), SetRole(g, u, role), SetOwner(g, u);
    if OneOwner(removed) {
      assert removed.owner in removed.members;
    }
    if u in g.members {
      assert set_.members[u] == role;
      if u != g.owner {
        assert set_.members[g.owner] == Owner;
      }
    }
    assert named.members[g.owner] == Owner;
    forall v
      ensures v in RemoveMember(g, u).members <==> v in g.members && v != u
    {
    }
  }

  /** The part of a name list that is looked at. */
  function FirstOf(found: seq<Option<User>>): seq<Option<User>> {
    if |found| > ADD_LIMIT then found[..ADD_LIMIT] else found
  }

  /** Who the first hundred names of a list bring in. */
  lemma NewcomersOf(g: Group, found: seq<Option<User>>, u: User)
    requires OneOwner(g) && u !in g.members
    ensures u in AddKnown(g, FirstOf(found)).members <==>
            exists k :: && 0 <= k < |found| && k < 100 && found[k] == Some(u)
                        && forall j :: 0 <= j < k ==> found[j].Some?
  {
    hide OneOwner, AddKnown;
    var first := FirstOf(found);
    AddKnownMeaning(g, first, u);
    if k :| 0 <= k < |first| && first[k] == Some(u) && AllKnown(first[..k]) {
      assert found[k] == Some(u);
      forall j | 0 <= j < k
        ensures found[j].Some?
      {
        assert first[..k][j] == found[j];
      }
    }
    if k :| 0 <= k < |found| && k < 100 && found[k] == Some(u) && forall j :: 0 <= j < k ==> found[j].Some? {
      assert first[k] == Some(u) && AllKnown(first[..k]);
    }
  }

  class GroupStore {
    var groups: map<Id, Group>

    ghost predicate Valid()
      reads this
    {
      forall id :: id in groups ==> OneOwner(groups[id])
    }

    constructor ()
      ensures Valid() && groups == map[]
    {
      groups := map[];
    }

    /** `group.create` and the group of a department: row, first member, role, then the invited. */
    method Create(id: Id, me: User, invited: seq<User>)
      requires Valid() && id !in groups
      modifies this
      ensures Valid() && groups - {id} == old(groups) - {id} && id in groups
      ensures groups[id].owner == me && groups[id].members.Keys == {me} + (set u | u in invited)
      ensures forall u :: u in groups[id].members && u != me ==> groups[id].members[u] == Member
    {
      var g := Group(me, map[]);
      g := AddMember(g, me);
      g := SetRole(g, me, Owner);
      assert OneOwner(g);
      for i := 0 to |invited|
        invariant groups == old(groups) && OneOwner(g) && g.owner == me
        invariant g.members.Keys == {me} + (set u | u in invited[..i])
        invariant forall u :: u in g.members && u != me ==> g.members[u] == Member
      {
        assert invited[..i + 1] == invited[..i] + [invited[i]];
        if invited[i] != me {
          StatementsExact(g, invited[i], Member);
          g := AddMember(g, invited[i]);
        }
      }
      assert invited[..|invited|] == invited;
      ghost var before := groups;
      groups := groups[id := g];
      assert groups - {id} == before - {id};
    }

    /**
     `group.member.add`, for at most a hundred names; an unknown name stops the loop with an
     error, but who was added before it stays.
     */
    method AddMembers(me: User, id: Id, found: seq<Option<User>>) returns (r: Result<(), GroupError>)
      requires Valid()
      modifies this
      ensures r.Err? ==> r.error == if id !in old(groups) then NoGroup else if me !in old(groups)[id].members then NotIn
                                    else if old(groups)[id].members[me] == Member then NotAllowed else NoUser
      ensures Valid() && groups - {id} == old(groups) - {id}
      ensures r.Ok? <==>
                && id in old(groups) && me in old(groups)[id].members && old(groups)[id].members[me] != Member
                && forall k :: 0 <= k < |found| && k < 100 ==> found[k].Some?
      ensures id in old(groups) ==>
                && id in groups
                && groups[id] == if me in old(groups)[id].members && old(groups)[id].members[me] != Member
                                 then AddKnown(old(groups)[id], FirstOf(found)) else old(groups)[id]
      ensures id in old(groups) && me in old(groups)[id].members && old(groups)[id].members[me] != Member ==>
                forall u :: u !in old(groups)[id].members ==>
                              (u in groups[id].members <==>
                               exists k :: && 0 <= k < |found| && k < 100 && found[k] == Some(u)
                                           && forall j :: 0 <= j < k ==> found[j].Some?)
    {
      if id !in groups {
        return Err(NoGroup);
      }
      if me !in groups[id].members {
        return Err(NotIn);
      }
      if groups[id].members[me] == Member {
        return Err(NotAllowed);
      }
      hide AddKnown, OneOwner, AddMember;
      ghost var before := groups;
      var taken := FirstOf(found);
      forall u | u !in groups[id].members
        ensures u in AddKnown(groups[id], taken).members <==>
                exists k :: && 0 <= k < |found| && k < 100 && found[k] == Some(u)
                            && forall j :: 0 <= j < k ==> found[j].Some?
      {
        NewcomersOf(groups[id], found, u);
      }
      assert taken[0..] == taken;
      for k := 0 to |taken|
        invariant Valid() && id in groups && groups - {id} == before - {id}
        invariant forall j :: 0 <= j < k ==> taken[j].Some?
        invariant AddKnown(before[id], taken) == AddKnown(groups[id], taken[k..])
      {
        assert taken[k..][1..] == taken[k + 1..];
        if taken[k].None? {
          return Err(NoUser);
        }
        StatementsExact(groups[id], taken[k].value, Member);
        groups := groups[id := AddMember(groups[id], taken[k].value)];
      }
      return Ok(());
    }

    /** `group.join` through an invitation; with approval on, only a request is filed. */
    method Join(me: User, id: Id, approval: bool) returns (r: Result<bool, GroupError>)
      requires Valid()
      modifies this
      ensures Valid() && groups - {id} == old(groups) - {id}
      ensures r.Ok? <==> id in old(groups)
      ensures r.Err? ==> r.error == NoGroup
      ensures r.Ok? ==> id in groups && (r.value <==> me in old(groups)[id].members || !approval)
      ensures r.Ok? ==> groups[id] == if r.value && me !in old(groups)[id].members
                                      then Group(old(groups)[id].owner, old(groups)[id].members[me := Member])
                                      else old(groups)[id]
    {
      if id !in groups {
        return Err(NoGroup);
      }
      if me !in groups[id].members {
        if approval {
          return Ok(false);
        }
        StatementsExact(groups[id], me, Member);
        groups := groups[id := AddMember(groups[id], me)];
      }
      return Ok(true);
    }

    /** `group.request.approve`; `pending` tells whether the request is still open. */
    method Approve(me: User, id: Id, target: User, pending: bool, on: bool) returns (r: Result<(), GroupError>)
      requires Valid()
      modifies this
      ensures Valid() && groups - {id} == old(groups) - {id}
      ensures r.Ok? <==> id in old(groups) && me in old(groups)[id].members && old(groups)[id].members[me] != Member
                         && pending
      ensures r.Err? ==> r.error == if id !in old(groups) then NoGroup else if me !in old(groups)[id].members then NotIn
                                    else if old(groups)[id].members[me] == Member then NotAllowed else Handled
      ensures id in old(groups) ==>
                && id in groups
                && groups[id] == if r.Ok? && on && target !in old(groups)[id].members
                                 then Group(old(groups)[id].owner, old(groups)[id].members[target := Member])
                                 else old(groups)[id]
    {
      if id !in groups {
        return Err(NoGroup);
      }
      if me !in groups[id].members {
        return Err(NotIn);
      }
      if groups[id].members[me] == Member {
        return Err(NotAllowed);
      }
      if !pending {
        return Err(Handled);
      }
      if on {
        StatementsExact(groups[id], target, Member);
        groups := groups[id := AddMember(groups[id], target)];
      }
      return Ok(());
    }

    /** `group.member.remove`: anybody may remove themselves, managers others, nobody the owner. */
    method Remove(me: User, id: Id, target: User) returns (r: Result<(), GroupError>)
      requires Valid()
      modifies this
      ensures Valid() && groups - {id} == old(groups) - {id}
      ensures r.Ok? <==> id in old(groups) && me in old(groups)[id].members && target != old(groups)[id].owner
                         && (target == me || old(groups)[id].members[me] != Member)
      ensures r.Err? ==> r.error == if id !in old(groups) then NoGroup else if me !in old(groups)[id].members then NotIn
                                    else if target == old(groups)[id].owner then IsOwner else NotAllowed
      ensures id in old(groups) ==>
                && id in groups && groups[id].owner == old(groups)[id].owner
                && groups[id].members == if r.Ok? then map u | u in old(groups)[id].members && u != target ::
                                                         old(groups)[id].members[u]
                                         else old(groups)[id].members
    {
      if id !in groups {
        return Err(NoGroup);
      }
      if me !in groups[id].members {
        return Err(NotIn);
      }
      if target == groups[id].owner {
        return Err(IsOwner);
      }
      StatementsExact(groups[id], target, Member);
      if target == me {
        groups := groups[id := RemoveMember(groups[id], me)];
        return Ok(());
      }
      if groups[id].members[me] == Member {
        return Err(NotAllowed);
      }
      groups := groups[id := RemoveMember(groups[id], target)];
      return Ok(());
    }

    /** `group.member.role`: guarded by the role column on one side and the owner column on the other. */
    method ChangeRole(me: User, id: Id, target: User, role: Role) returns (r: Result<(), GroupError>)
      requires Valid()
      modifies this
      ensures Valid() && groups - {id} == old(groups) - {id}
      ensures r.Ok? <==> id in old(groups) && old(groups)[id].owner == me && role != Owner && target != me
      ensures r.Err? ==> r.error == if id !in old(groups) then NoGroup else if me !in old(groups)[id].members then NotIn
                                    else if old(groups)[id].owner != me || role == Owner then NotAllowed else IsOwner
      ensures id in old(groups) ==>
                && id in groups
                && groups[id] == if r.Ok? && target in old(groups)[id].members
                                 then Group(old(groups)[id].owner, old(groups)[id].members[target := role])
                                 else old(groups)[id]
    {
      if id !in groups {
        return Err(NoGroup);
      }
      if me !in groups[id].members {
        return Err(NotIn);
      }
      if groups[id].members[me] != Owner {
        return Err(NotAllowed);
      }
      if role == Owner {
        return Err(NotAllowed);
      }
      if target == groups[id].owner {
        return Err(IsOwner);
      }
      StatementsExact(groups[id], target, role);
      groups := groups[id := SetRole(groups[id], target, role)];
      return Ok(());
    }

    /** `group.transferOwner`: owner column, new role, old role, in that order. */
    method TransferOwner(me: User, id: Id, target: User) returns (r: Result<(), GroupError>)
      requires Valid()
      modifies this
      ensures Valid() && groups - {id} == old(groups) - {id}
      ensures r.Ok? <==> id in old(groups) && old(groups)[id].owner == me
                         && target != me && target in old(groups)[id].members
      ensures r.Err? ==> r.error == if id !in old(groups) then NoGroup else if me !in old(groups)[id].members then NotIn
                                    else if old(groups)[id].owner != me then NotAllowed
                                    else if target == me then SelfTransfer else NotIn
      ensures r.Ok? ==> id in groups && groups[id].owner == target
                        && groups[id].members == old(groups)[id].members[target := Owner][me := Admin]
      ensures r.Err? ==> groups == old(groups)
    {
      if id !in groups {
        return Err(NoGroup);
      }
      if me !in groups[id].members {
        return Err(NotIn);
      }
      if groups[id].owner != me {
        return Err(NotAllowed);
      }
      if target == me {
        return Err(SelfTransfer);
      }
      if target !in groups[id].members {
        return Err(NotIn);
      }
      TransferNeedsAllSteps(groups[id], me, target);
      groups := groups[id := SetOwner(groups[id], target)];
      groups := groups[id := SetRole(groups[id], target, Owner)];
      groups := groups[id := SetRole(groups[id], me, Admin)];
      return Ok(());
    }

    /** `group.leave`: not for the owner. */
    method Leave(me: User, id: Id) returns (r: Result<(), GroupError>)
      requires Valid()
      modifies this
      ensures Valid() && groups - {id} == old(groups) - {id}
      ensures r.Ok? <==> id in old(groups) && me in old(groups)[id].members && old(groups)[id].members[me] != Owner
      ensures r.Err? ==> r.error == if id !in old(groups) then NoGroup else if me !in old(groups)[id].members then NotIn
                                    else IsOwner
      ensures id in old(groups) ==>
                && id in groups && groups[id].owner == old(groups)[id].owner
                && groups[id].members == if r.Ok? then map u | u in old(groups)[id].members && u != me ::
                                                         old(groups)[id].members[u]
                                         else old(groups)[id].members
    {
      if id !in groups {
        return Err(NoGroup);
      }
      if me !in groups[id].members {
        return Err(NotIn);
      }
      if groups[id].owner == me {
        return Err(IsOwner);
      }
      StatementsExact(groups[id], me, Member);
      groups := groups[id := RemoveMember(groups[id], me)];
      return Ok(());
    }

    /** `group.delete` by the owner, or by an administrator of the server. */
    method Delete(me: User, id: Id, serverAdmin: bool) returns (r: Result<(), GroupError>)
      requires Valid()
      modifies this
      ensures Valid() && groups - {id} == old(groups) - {id}
      ensures r.Ok? <==> id in old(groups) && (serverAdmin || old(groups)[id].owner == me)
      ensures r.Err? ==> r.error == if id !in old(groups) then NoGroup else if me !in old(groups)[id].members then NotIn
                                    else NotAllowed
      ensures groups == if r.Ok? then old(groups) - {id} else old(groups)
    {
      if id !in groups {
        return Err(NoGroup);
      }
      if !serverAdmin {
        if me !in groups[id].members {
          return Err(NotIn);
        }
        if groups[id].owner != me {
          return Err(NotAllowed);
        }
      }
      groups := groups - {id};
      return Ok(());
    }
  }
}
