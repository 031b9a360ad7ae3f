/**
 The organisation handlers over the department, user and group tables. Every handler is one
 atomic step; a refused one changes nothing.
 */
module Departments {
  import opened Wrappers
  import opened DepartmentForest
  import opened DepartmentEdits

  const NAME_LIMIT: nat := 30

  datatype OrgError =
    | NameMissing | ParentMissing | TooDeep | NameTaken | DeptMissing
    | IntoSelf | IntoOwnSubtree | HasChildren | HasMembers | UserMissing | GroupMissing | KeyTaken

  /** The name as stored: the trimmed input cut to the limit. */
  function CleanName(trimmed: string): (name: string)
    ensures name <= trimmed && |name| <= 30
    ensures |name| == 30 || name == trimmed
  {
    if |trimmed| > NAME_LIMIT then trimmed[..NAME_LIMIT] else trimmed
  }

  ghost predicate DistinctUsers(users: seq<User>) {
    forall i, j :: 0 <= i < j < |users| ==> users[i].id != users[j].id
  }

  /** The department and everything under it. */
  ghost predicate InScope(rows: seq<Dept>, id: Id, dept: Option<Id>) {
    dept.Some? && (dept.value == id || Descendant(rows, id, dept.value))
  }

  /** Users a department group of `id` is meant to hold. */
  ghost function Staff(rows: seq<Dept>, users: seq<User>, id: Id): set<Id> {
    if users == [] then {}
    else
      var rest := |users| - 1;
      Staff(rows, users[..rest], id)
      + if !users[rest].banned && InScope(rows, id, users[rest].dept) then {users[rest].id} else {}
  }

  /** Exactly the unbanned users placed in the department or somewhere below it. */
  lemma {:induction false} StaffMeaning(rows: seq<Dept>, users: seq<User>, id: Id, x: Id)
    ensures x in Staff(rows, users, id) <==>
            exists u :: && u in users && u.id == x && !u.banned && u.dept.Some?
                        && (u.dept.value == id || Descendant(rows, id, u.dept.value))
  {
    if users != [] {
      var rest := |users| - 1;
      StaffMeaning(rows, users[..rest], id, x);
      assert users == users[..rest] + [users[rest]];
    }
  }

  lemma ScopeByLookup(rows: seq<Dept>, id: Id, below: set<Id>, dept: Option<Id>)
    requires forall x :: x in below <==> Descendant(rows, id, x)
    ensures InScope(rows, id, dept) <==> dept.Some? && dept.value in below + {id}
  {
  }

  lemma RegroupKeepsNames(rows: seq<Dept>, id: Id, group: Option<Id>)
    requires SiblingsDistinct(rows) && forall row :: row in rows ==> row.name != ""
    ensures SiblingsDistinct(WithGroup(rows, id, group))
    ensures forall row :: row in WithGroup(rows, id, group) ==> row.name != ""
  {
    assert forall i :: 0 <= i < |rows| ==> rows[i] in rows;
  }

  /** A group update leaves every chain of parents alone. */
  lemma RegroupKeepsValid(rows: seq<Dept>, users: seq<User>, id: Id, group: Option<Id>)
    requires ValidTable(rows, users)
    ensures ValidTable(WithGroup(rows, id, group), users)
  {
    ForestKept(rows, WithGroup(rows, id, group));
    UsersKept(rows, WithGroup(rows, id, group), users);
    RegroupKeepsNames(rows, id, group);
  }

  lemma StaffStep(rows: seq<Dept>, users: seq<User>, id: Id, i: nat)
    requires i < |users|
    ensures Staff(rows, users[..i + 1], id) ==
            Staff(rows, users[..i], id) +
            if !users[i].banned && InScope(rows, id, users[i].dept) then {users[i].id} else {}
  {
    assert users[..i + 1][..i] == users[..i];
  }

  /** The member loop of a new department group. */
  method Enlist(rows: seq<Dept>, users: seq<User>, id: Id, me: Id) returns (members: set<Id>)
    ensures members == {me} + Staff(rows, users, id)
  {
    var scope := DescendantsOf(rows, id);
    ghost var below := scope;
    scope := scope + {id};
    members := {me};
    for i := 0 to |users|
      invariant members == {me} + Staff(rows, users[..i], id)
    {
      var user := users[i];
      ScopeByLookup(rows, id, below, user.dept);
      StaffStep(rows, users, id, i);
      if user.id == me || user.banned {
        continue;
      }
      if user.dept.Some? && user.dept.value in scope {
        members := members + {user.id};
      }
    }
    assert users[..|users|] == users;
  }

  /** A user met for the first time is not on the list yet. */
  lemma StaffFresh(rows: seq<Dept>, users: seq<User>, id: Id, i: nat)
    requires DistinctUsers(users) && i < |users|
    ensures users[i].id !in Staff(rows, users[..i], id)
  {
    StaffMeaning(rows, users[..i], id, users[i].id);
  }

  /** The member loop of a group synchronisation, counting the newcomers. */
  method Recruit(rows: seq<Dept>, users: seq<User>, id: Id, existing: set<Id>) returns (members: set<Id>, added: nat)
    requires DistinctUsers(users)
    ensures members == existing + Staff(rows, users, id)
    ensures added == |members| - |existing|
  {
    var scope := DescendantsOf(rows, id);
    ghost var below := scope;
    scope := scope + {id};
    members, added := existing, 0;
    ghost var staff := Staff(rows, users[..0], id);
    for i := 0 to |users|
      invariant staff == Staff(rows, users[..i], id)
      invariant members == existing + staff
      invariant added == |members| - |existing|
    {
      var user := users[i];
      ScopeByLookup(rows, id, below, user.dept);
      StaffStep(rows, users, id, i);
      StaffFresh(rows, users, id, i);
      ghost var before := staff;
      staff := Staff(rows, users[..i + 1], id);
      if user.banned || user.id in existing {
        assert existing + staff == existing + before;
        continue;
      }
      if user.dept.Some? && user.dept.value in scope {
        assert user.id !in members;
        members := members + {user.id};
        added := added + 1;
      }
    }
    assert users[..|users|] == users;
  }

  class Organisation {
    var rows: seq<Dept>
    var users: seq<User>
    var groups: map<Id, set<Id>>

    ghost predicate Valid()
      reads this
    {
      ValidTable(rows, users) && DistinctUsers(users)
    }

    constructor ()
      ensures Valid() && rows == [] && users == [] && groups == map[]
    {
      rows, users, groups := [], [], map[];
    }

    /** `admin.department.create`: accepted exactly when the extended table is valid. */
    method Create(newId: Id, trimmed: string, parent: Option<Id>) returns (r: Result<Dept, OrgError>)
      requires Valid()
      modifies this`rows
      ensures Valid()
      ensures r.Ok? <==> ValidTable(old(rows) + [Dept(newId, CleanName(trimmed), parent, None)], users)
      ensures r.Ok? ==> rows == old(rows) + [r.value] && r.value == Dept(newId, CleanName(trimmed), parent, None)
      ensures r.Err? ==> rows == old(rows)
      ensures r == Err(NameMissing) <==> CleanName(trimmed) == ""
      ensures r == Err(ParentMissing) ==> parent.Some? && forall row :: row in rows ==> row.id != parent.value
      ensures r == Err(TooDeep) ==> parent.Some? && HasDepth(rows, parent.value, 5)
      ensures r == Err(NameTaken) ==>
                exists item :: item in rows && item.parent == parent && item.name == CleanName(trimmed)
      ensures r.Err? ==> r.error in {NameMissing, ParentMissing, TooDeep, NameTaken, KeyTaken}
      ensures r == Err(KeyTaken) ==> exists item :: item in rows && item.id == newId
    {
      var name := CleanName(trimmed);
      var row := Dept(newId, name, parent, None);
      CreateExact(rows, users, row);
      if name == "" {
        return Err(NameMissing);
      }
      if parent.Some? && !Exists(rows, parent.value) {
        return Err(ParentMissing);
      }
      var depth := ChainDepth(rows, parent);
      if depth >= MAX_DEPTH {
        return Err(TooDeep);
      }
      if exists item :: item in rows && item.parent == parent && item.name == name {
        var item :| item in rows && item.parent == parent && item.name == name;
        if !Exists(rows, newId) {
          assert Taken(rows, newId, parent, name);
        }
        return Err(NameTaken);
      }
      if Exists(rows, newId) {
        return Err(KeyTaken);
      }
      rows := rows + [row];
      return Ok(row);
    }

    /** `admin.department.rename`: accepted exactly when the renamed table is valid. */
    method Rename(id: Id, trimmed: string) returns (r: Result<(), OrgError>)
      requires Valid()
      modifies this`rows
      ensures Valid()
      ensures r.Ok? <==> Exists(old(rows), id) && ValidTable(WithName(old(rows), id, CleanName(trimmed)), users)
      ensures |rows| == |old(rows)|
      ensures forall i :: 0 <= i < |rows| ==>
                            rows[i] == if r.Ok? && old(rows)[i].id == id then old(rows)[i].(name := CleanName(trimmed))
                                       else old(rows)[i]
      ensures r == Err(NameMissing) <==> CleanName(trimmed) == ""
      ensures r == Err(DeptMissing) ==> forall row :: row in rows ==> row.id != id
      ensures r == Err(NameTaken) ==>
                exists row, item :: && row in rows && row.id == id && item in rows && item.id != id
                                    && item.parent == row.parent && item.name == CleanName(trimmed)
      ensures r.Err? ==> r.error in {NameMissing, DeptMissing, NameTaken}
    {
      var name := CleanName(trimmed);
      if Exists(rows, id) {
        RenameExact(rows, users, id, name);
      }
      if name == "" {
        return Err(NameMissing);
      }
      var found := Find(rows, id);
      if found.None? {
        return Err(DeptMissing);
      }
      if exists item :: item in rows && item.parent == found.value.parent && item.name == name && item.id != id {
        return Err(NameTaken);
      }
      rows := WithName(rows, id, name);
      return Ok(());
    }

    /** `admin.department.move`: accepted exactly when the re-parented table is valid. */
    method Move(id: Id, parent: Option<Id>) returns (r: Result<(), OrgError>)
      requires Valid()
      modifies this`rows
      ensures Valid()
      ensures r.Ok? <==> Exists(old(rows), id) && ValidTable(WithParent(old(rows), id, parent), users)
      ensures |rows| == |old(rows)|
      ensures forall i :: 0 <= i < |rows| ==>
                            rows[i] == if r.Ok? && old(rows)[i].id == id then old(rows)[i].(parent := parent)
                                       else old(rows)[i]
      ensures r == Err(DeptMissing) <==> forall row :: row in rows ==> row.id != id
      ensures r == Err(IntoSelf) ==> parent == Some(id)
      ensures r == Err(ParentMissing) ==> parent.Some? && forall row :: row in rows ==> row.id != parent.value
      ensures r == Err(IntoOwnSubtree) ==> parent.Some? && Descendant(rows, id, parent.value)
      ensures r == Err(TooDeep) ==>
                && parent.Some? && !Descendant(rows, id, parent.value)
                && exists d: nat, h: nat :: HasDepth(rows, parent.value, d) && IsHeight(rows, id, h) && d + h > 5
      ensures r == Err(NameTaken) ==>
                exists row, item :: && row in rows && row.id == id && item in rows && item.id != id
                                    && item.parent == parent && item.name == row.name
      ensures r.Err? ==> r.error in {DeptMissing, IntoSelf, ParentMissing, IntoOwnSubtree, TooDeep, NameTaken}
    {
      var found := Find(rows, id);
      if found.None? {
        return Err(DeptMissing);
      }
      MoveExact(rows, users, id, parent);
      if parent == Some(id) {
        return Err(IntoSelf);
      }
      if parent.Some? {
        if !Exists(rows, parent.value) {
          return Err(ParentMissing);
        }
        var below := DescendantsOf(rows, id);
        if parent.value in below {
          return Err(IntoOwnSubtree);
        }
        var depth := ChainDepth(rows, parent);
        var height := SubtreeHeight(rows, id);
        FitsByMeasure(rows, id, parent.value, depth, height);
        if depth + height > MAX_DEPTH {
          return Err(TooDeep);
        }
      }
      if exists item :: item in rows && item.parent == parent && item.name == found.value.name && item.id != id {
        return Err(NameTaken);
      }
      rows := WithParent(rows, id, parent);
      return Ok(());
    }

    /** `admin.department.delete`: accepted exactly when the remaining table is valid. */
    method Delete(id: Id) returns (r: Result<(), OrgError>)
      requires Valid()
      modifies this`rows
      ensures Valid()
      ensures r.Ok? <==> Exists(old(rows), id) && ValidTable(Without(old(rows), id), users)
      ensures r.Err? ==> rows == old(rows)
      ensures r.Ok? ==> exists i :: && 0 <= i < |old(rows)| && old(rows)[i].id == id
                                    && rows == old(rows)[..i] + old(rows)[i + 1..]
      ensures r == Err(DeptMissing) <==> forall row :: row in old(rows) ==> row.id != id
      ensures r.Err? ==> r.error in {DeptMissing, HasChildren, HasMembers}
      ensures r == Err(HasChildren) ==> exists item :: item in rows && item.parent == Some(id)
      ensures r == Err(HasMembers) ==> exists u :: u in users && u.dept == Some(id)
    {
      if !Exists(rows, id) {
        return Err(DeptMissing);
      }
      DeleteExact(rows, users, id);
      if exists item :: item in rows && item.parent == Some(id) {
        return Err(HasChildren);
      }
      if exists u :: u in users && u.dept == Some(id) {
        return Err(HasMembers);
      }
      var i := WithoutAt(rows, id);
      rows := Without(rows, id);
      return Ok(());
    }

    /** `admin.user.create`: a new account, optionally placed. */
    method AddUser(userId: Id, dept: Option<Id>) returns (r: Result<(), OrgError>)
      requires Valid()
      modifies this`users
      ensures Valid()
      ensures r.Ok? <==> (forall u :: u in old(users) ==> u.id != userId) && (dept.Some? ==> Exists(rows, dept.value))
      ensures users == if r.Ok? then old(users) + [User(userId, dept, false)] else old(users)
      ensures r.Err? ==> r.error in {DeptMissing, KeyTaken}
      ensures r == Err(DeptMissing) <==> dept.Some? && forall row :: row in rows ==> row.id != dept.value
    {
      if dept.Some? && !Exists(rows, dept.value) {
        return Err(DeptMissing);
      }
      if exists u :: u in users && u.id == userId {
        return Err(KeyTaken);
      }
      users := users + [User(userId, dept, false)];
      return Ok(());
    }

    /** `admin.ban`: administrators cannot ban themselves. */
    method SetBanned(me: Id, userId: Id, on: bool) returns (r: Result<(), OrgError>)
      requires Valid()
      modifies this`users
      ensures Valid()
      ensures r.Ok? <==> userId != me && exists u :: u in old(users) && u.id == userId
      ensures r.Err? ==> r == if userId == me then Err(IntoSelf) else Err(UserMissing)
      ensures |users| == |old(users)|
      ensures forall i :: 0 <= i < |users| ==>
                            users[i] == if r.Ok? && old(users)[i].id == userId then old(users)[i].(banned := on)
                                        else old(users)[i]
    {
      if userId == me {
        return Err(IntoSelf);
      }
      if !exists u :: u in users && u.id == userId {
        return Err(UserMissing);
      }
      var before := users;
      users := seq(|before|, i requires 0 <= i < |before| =>
        if before[i].id == userId then before[i].(banned := on) else before[i]);
      forall u | u in users && u.dept.Some?
        ensures Exists(rows, u.dept.value)
      {
        var i :| 0 <= i < |users| && users[i] == u;
        assert before[i] in before;
      }
      return Ok(());
    }

    /** `admin.user.assign`: moves one user into an existing department or out of all. */
    method Assign(userId: Id, dept: Option<Id>) returns (r: Result<(), OrgError>)
      requires Valid()
      modifies this`users
      ensures Valid()
      ensures r.Ok? <==> (exists u :: u in old(users) && u.id == userId) && (dept.Some? ==> Exists(rows, dept.value))
      ensures r.Err? ==> r == if exists u :: u in users && u.id == userId then Err(DeptMissing) else Err(UserMissing)
      ensures |users| == |old(users)|
      ensures forall i :: 0 <= i < |users| ==>
                            users[i] == if r.Ok? && old(users)[i].id == userId then old(users)[i].(dept := dept)
                                        else old(users)[i]
    {
      if !exists u :: u in users && u.id == userId {
        return Err(UserMissing);
      }
      if dept.Some? && !Exists(rows, dept.value) {
        return Err(DeptMissing);
      }
      var before := users;
      users := seq(|before|, i requires 0 <= i < |before| =>
        if before[i].id == userId then before[i].(dept := dept) else before[i]);
      forall u | u in users && u.dept.Some?
        ensures Exists(rows, u.dept.value)
      {
        var i :| 0 <= i < |users| && users[i] == u;
        assert before[i] in before;
      }
      return Ok(());
    }

    /**
     `admin.department.group`: gives the department a group holding the caller and the
     unbanned users of its subtree, unless it already has a live one.
     */
    method CreateGroup(id: Id, me: Id, newGroup: Id) returns (r: Result<(Id, bool), OrgError>)
      requires Valid()
      modifies this`rows, this`groups
      ensures Valid()
      ensures r.Err? ==> rows == old(rows) && groups == old(groups)
      ensures r == Err(DeptMissing) <==> forall row :: row in old(rows) ==> row.id != id
      ensures r.Err? ==> r == Err(DeptMissing) || (r == Err(KeyTaken) && newGroup in groups)
      ensures forall row :: row in old(rows) && row.id == id && row.group.Some? && row.group.value in old(groups) ==>
                              r == Ok((row.group.value, false))
      ensures r.Ok? && !r.value.1 ==> rows == old(rows) && groups == old(groups)
      ensures r.Ok? && r.value.1 ==>
                && r.value.0 == newGroup && newGroup !in old(groups)
                && groups == old(groups)[newGroup := {me} + Staff(old(rows), users, id)]
                && |rows| == |old(rows)|
                && forall i :: 0 <= i < |rows| ==>
                                 rows[i] == if old(rows)[i].id == id then old(rows)[i].(group := Some(newGroup))
                                            else old(rows)[i]
      ensures r.Ok? ==> forall row :: row in rows && row.id == id ==> row.group == Some(r.value.0) && r.value.0 in groups
    {
      var found := Find(rows, id);
      if found.None? {
        return Err(DeptMissing);
      }
      if found.value.group.Some? && found.value.group.value in groups {
        return Ok((found.value.group.value, false));
      }
      if newGroup in groups {
        return Err(KeyTaken);
      }
      var members := Enlist(rows, users, id, me);
      groups := groups[newGroup := members];
      RegroupKeepsValid(rows, users, id, Some(newGroup));
      rows := WithGroup(rows, id, Some(newGroup));
      return Ok((newGroup, true));
    }

    /**
     `admin.department.group.sync`: nobody is removed, every unbanned user of the subtree
     ends up in, and the answer is the number of people who were not in before.
     */
    method SyncGroup(id: Id) returns (r: Result<nat, OrgError>)
      requires Valid()
      modifies this`groups
      ensures Valid()
      ensures r == Err(DeptMissing) <==> forall row :: row in rows ==> row.id != id
      ensures r.Err? ==> r.error in {DeptMissing, GroupMissing} && groups == old(groups)
      ensures forall row :: row in rows && row.id == id ==>
                              (r.Ok? <==> row.group.Some? && row.group.value in old(groups))
      ensures forall row :: row in rows && row.id == id && r.Ok? ==>
                              var g := row.group.value;
                              && groups == old(groups)[g := old(groups)[g] + Staff(rows, users, id)]
                              && r.value == |groups[g]| - |old(groups)[g]|
    {
      var found := Find(rows, id);
      if found.None? {
        return Err(DeptMissing);
      }
      if found.value.group.None? {
        return Err(GroupMissing);
      }
      var g := found.value.group.value;
      if g !in groups {
        return Err(GroupMissing);
      }
      var members, added := Recruit(rows, users, id, groups[g]);
      groups := groups[g := members];
      return Ok(added);
    }
  }

  lemma FitsByMeasure(rows: seq<Dept>, id: Id, q: Id, depth: nat, height: nat)
    requires Forest(rows) && Exists(rows, q) && q != id && !Descendant(rows, id, q)
    requires IsHeight(rows, id, height)
    requires forall d: nat :: d <= 32 && HasDepth(rows, q, d) ==> depth == d
    ensures Fits(rows, id, Some(q)) <==> depth + height <= MAX_DEPTH
  {
    var d: nat :| d <= MAX_DEPTH && HasDepth(rows, q, d);
    if Fits(rows, id, Some(q)) {
      var e: nat, h: nat :| HasDepth(rows, q, e) && IsHeight(rows, id, h) && e + h <= MAX_DEPTH;
      DepthUnique(rows, q, d, e);
      var x, n: nat :| Below(rows, id, x, n) && n + 1 == height;
    }
  }
}
