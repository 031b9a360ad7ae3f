/**
 The four edits of the department table as table updates, and for each one the exact
 condition under which the updated table is again valid.
 */
module DepartmentEdits {
  import opened Wrappers
  import opened DepartmentForest

  datatype User = User(id: Id, dept: Option<Id>, banned: bool)

  ghost predicate SiblingsDistinct(rows: seq<Dept>) {
    forall i, j :: 0 <= i < j < |rows| && rows[i].parent == rows[j].parent ==> rows[i].name != rows[j].name
  }

  ghost predicate UsersPlaced(rows: seq<Dept>, users: seq<User>) {
    forall u :: u in users && u.dept.Some? ==> Exists(rows, u.dept.value)
  }

  /** The invariant of the organisation tables. */
  ghost predicate ValidTable(rows: seq<Dept>, users: seq<User>) {
    && Forest(rows)
    && SiblingsDistinct(rows)
    && (forall row :: row in rows ==> row.name != "")
    && UsersPlaced(rows, users)
  }

  function WithName(rows: seq<Dept>, id: Id, name: string): seq<Dept> {
    seq(|rows|, i requires 0 <= i < |rows| => if rows[i].id == id then rows[i].(name := name) else rows[i])
  }

  function WithParent(rows: seq<Dept>, id: Id, parent: Option<Id>): seq<Dept> {
    seq(|rows|, i requires 0 <= i < |rows| => if rows[i].id == id then rows[i].(parent := parent) else rows[i])
  }

  function WithGroup(rows: seq<Dept>, id: Id, group: Option<Id>): seq<Dept> {
    seq(|rows|, i requires 0 <= i < |rows| => if rows[i].id == id then rows[i].(group := group) else rows[i])
  }

  function Without(rows: seq<Dept>, id: Id): (rest: seq<Dept>)
    ensures forall row :: row in rest <==> row in rows && row.id != id
    ensures DistinctIds(rows) ==> DistinctIds(rest)
  {
    if rows == [] then []
    else if rows[0].id == id then Without(rows[1..], id)
    else
      var rest := Without(rows[1..], id);
      assert forall row :: row in rest ==> row in rows[1..];
      [rows[0]] + rest
  }

  /** Exactly one row goes, and the others stay in order. */
  lemma {:induction false} WithoutAt(rows: seq<Dept>, id: Id) returns (at: nat)
    requires DistinctIds(rows) && Exists(rows, id)
    ensures at < |rows| && rows[at].id == id && Without(rows, id) == rows[..at] + rows[at + 1..]
  {
    OthersDiffer(rows);
    hide DistinctIds, Exists;
    if rows[0].id == id {
      at := 0;
      WithoutNothing(rows[1..], id);
    } else {
      hide Without;
      var i := WithoutAt(rows[1..], id);
      at := i + 1;
      WithoutBehind(rows, id);
      FirstKept(rows, i);
    }
  }

  lemma WithoutBehind(rows: seq<Dept>, id: Id)
    requires rows != [] && rows[0].id != id
    ensures Without(rows, id) == [rows[0]] + Without(rows[1..], id)
  {
  }

  lemma FirstKept(rows: seq<Dept>, i: nat)
    requires i + 1 < |rows|
    ensures [rows[0]] + (rows[1..][..i] + rows[1..][i + 1..]) == rows[..i + 1] + rows[i + 2..]
  {
  }

  lemma OthersDiffer(rows: seq<Dept>)
    requires DistinctIds(rows) && rows != []
    ensures DistinctIds(rows[1..]) && forall row :: row in rows[1..] ==> row.id != rows[0].id
  {
  }

  lemma {:induction false} WithoutNothing(rows: seq<Dept>, id: Id)
    requires forall row :: row in rows ==> row.id != id
    ensures Without(rows, id) == rows
  {
    if rows != [] {
      WithoutNothing(rows[1..], id);
    }
  }

  /** Same keys in the same places: what an UPDATE of other columns leaves alone. */
  ghost predicate SameIds(rows: seq<Dept>, rows': seq<Dept>) {
    |rows| == |rows'| && forall i :: 0 <= i < |rows| ==> rows[i].id == rows'[i].id
  }

  lemma {:induction false} FindUpdated(rows: seq<Dept>, rows': seq<Dept>, id: Id)
    requires SameIds(rows, rows')
    ensures Exists(rows, id) <==> Exists(rows', id)
    ensures Exists(rows, id) ==>
              exists i :: 0 <= i < |rows| && Find(rows, id) == Some(rows[i]) && Find(rows', id) == Some(rows'[i])
  {
    if rows != [] && rows[0].id != id {
      FindUpdated(rows[1..], rows'[1..], id);
      if Exists(rows, id) {
        var i :| && 0 <= i < |rows[1..]|
                 && Find(rows[1..], id) == Some(rows[1..][i]) && Find(rows'[1..], id) == Some(rows'[1..][i]);
        assert Find(rows, id) == Some(rows[i + 1]);
      }
    }
  }

  lemma {:induction false} FindAppended(rows: seq<Dept>, row: Dept, id: Id)
    ensures Find(rows + [row], id) ==
            if Exists(rows, id) then Find(rows, id) else if row.id == id then Some(row) else None
  {
    if rows == [] {
      assert rows + [row] == [row];
    } else {
      assert (rows + [row])[1..] == rows[1..] + [row];
      FindAppended(rows[1..], row, id);
    }
  }

  ghost predicate SameParent(rows: seq<Dept>, rows': seq<Dept>, id: Id) {
    Exists(rows, id) && Exists(rows', id) && Find(rows, id).value.parent == Find(rows', id).value.parent
  }

  /** A depth survives any update that keeps the parents along the chain. */
  lemma {:induction false} DepthKept(rows: seq<Dept>, rows': seq<Dept>, x: Id, d: nat)
    requires HasDepth(rows, x, d)
    requires forall y, k: nat :: Below(rows, y, x, k) && Exists(rows, y) ==> SameParent(rows, rows', y)
    ensures HasDepth(rows', x, d)
    decreases d
  {
    var row := Find(rows, x).value;
    assert Below(rows, x, x, 0);
    if row.parent.Some? {
      forall y, k: nat | Below(rows, y, row.parent.value, k) && Exists(rows, y)
        ensures SameParent(rows, rows', y)
      {
        assert Below(rows, y, x, k + 1);
      }
      DepthKept(rows, rows', row.parent.value, d - 1);
    }
  }

  /** Nothing that decides depth changed, so the forest is still one. */
  lemma ForestKept(rows: seq<Dept>, rows': seq<Dept>)
    requires Forest(rows) && SameIds(rows, rows')
    requires forall i :: 0 <= i < |rows| ==> rows[i].parent == rows'[i].parent
    ensures Forest(rows')
  {
    forall row | row in rows'
      ensures Rooted(rows', row.id)
    {
      var i :| 0 <= i < |rows'| && rows'[i] == row;
      assert rows[i] in rows;
      var d: nat :| d <= MAX_DEPTH && HasDepth(rows, row.id, d);
      forall y, k: nat | Below(rows, y, row.id, k) && Exists(rows, y)
        ensures SameParent(rows, rows', y)
      {
        FindUpdated(rows, rows', y);
      }
      DepthKept(rows, rows', row.id, d);
    }
  }

  /** Another row under `parent` already carries `name`. */
  ghost predicate Taken(rows: seq<Dept>, id: Id, parent: Option<Id>, name: string) {
    exists item :: item in rows && item.parent == parent && item.name == name && item.id != id
  }

  lemma UsersKept(rows: seq<Dept>, rows': seq<Dept>, users: seq<User>)
    requires SameIds(rows, rows') && UsersPlaced(rows, users)
    ensures UsersPlaced(rows', users)
  {
    forall u | u in users && u.dept.Some?
      ensures Exists(rows', u.dept.value)
    {
      FindUpdated(rows, rows', u.dept.value);
    }
  }

  /** Changing one row keeps siblings distinct exactly when its new place and name are free. */
  lemma SiblingsAfterUpdate(rows: seq<Dept>, at: nat, row: Dept)
    requires DistinctIds(rows) && SiblingsDistinct(rows) && at < |rows| && row.id == rows[at].id
    ensures SiblingsDistinct(rows[at := row]) <==> !Taken(rows, row.id, row.parent, row.name)
  {
    var rows' := rows[at := row];
    if Taken(rows, row.id, row.parent, row.name) {
      var item :| item in rows && item.parent == row.parent && item.name == row.name && item.id != row.id;
      var i :| 0 <= i < |rows| && rows[i] == item;
      assert rows'[i] == item && rows'[at] == row;
    } else {
      forall i, j | 0 <= i < j < |rows'| && rows'[i].parent == rows'[j].parent
        ensures rows'[i].name != rows'[j].name
      {
        assert rows[i] in rows && rows[j] in rows;
      }
    }
  }

  lemma RenamedAt(rows: seq<Dept>, id: Id, name: string) returns (at: nat)
    requires DistinctIds(rows) && Exists(rows, id)
    ensures at < |rows| && rows[at] == Find(rows, id).value
    ensures WithName(rows, id, name) == rows[at := rows[at].(name := name)]
  {
    at :| 0 <= at < |rows| && rows[at] == Find(rows, id).value;
  }

  lemma MovedAt(rows: seq<Dept>, id: Id, parent: Option<Id>) returns (at: nat)
    requires DistinctIds(rows) && Exists(rows, id)
    ensures at < |rows| && rows[at] == Find(rows, id).value
    ensures WithParent(rows, id, parent) == rows[at := rows[at].(parent := parent)]
  {
    at :| 0 <= at < |rows| && rows[at] == Find(rows, id).value;
  }

  lemma RenameExact(rows: seq<Dept>, users: seq<User>, id: Id, name: string)
    requires ValidTable(rows, users) && Exists(rows, id)
    ensures ValidTable(WithName(rows, id, name), users) <==>
            name != "" && !Taken(rows, id, Find(rows, id).value.parent, name)
  {
    var rows' := WithName(rows, id, name);
    ForestKept(rows, rows');
    UsersKept(rows, rows', users);
    var at := RenamedAt(rows, id, name);
    SiblingsAfterUpdate(rows, at, rows[at].(name := name));
    assert rows'[at] in rows';
    assert forall row :: row in rows' ==> row in rows || row == rows'[at];
  }

  lemma {:induction false} WithoutSiblings(rows: seq<Dept>, id: Id)
    requires SiblingsDistinct(rows)
    ensures SiblingsDistinct(Without(rows, id))
  {
    if rows != [] {
      WithoutSiblings(rows[1..], id);
      if rows[0].id != id {
        forall row | row in Without(rows[1..], id) && row.parent == rows[0].parent
          ensures row.name != rows[0].name
        {
          var i :| 0 <= i < |rows[1..]| && rows[1..][i] == row;
          assert rows[i + 1] == row;
        }
      }
    }
  }

  lemma LeafDeleteKeepsForest(rows: seq<Dept>, id: Id)
    requires Forest(rows)
    requires forall item :: item in rows ==> item.parent != Some(id)
    ensures Forest(Without(rows, id))
  {
    var rows' := Without(rows, id);
    forall row | row in rows'
      ensures Rooted(rows', row.id)
    {
      var d: nat :| d <= MAX_DEPTH && HasDepth(rows, row.id, d);
      forall y, k: nat | Below(rows, y, row.id, k) && Exists(rows, y)
        ensures SameParent(rows, rows', y)
      {
        if k > 0 {
          BelowFirstChild(rows, y, row.id, k);
        }
        FindUnique(rows', Find(rows, y).value);
      }
      DepthKept(rows, rows', row.id, d);
    }
  }

  lemma ParentDeleteBreaksForest(rows: seq<Dept>, id: Id, item: Dept)
    requires Forest(rows) && item in rows && item.parent == Some(id)
    ensures !Forest(Without(rows, id))
  {
    hide Forest;
    var rows' := Without(rows, id);
    if item.id == id {
      assert Below(rows, id, id, 0);
      assert Below(rows, id, id, 1);
      ForestAcyclic(rows, id);
    } else if Forest(rows') {
      ForestKeys(rows');
      FindUnique(rows', item);
      ParentExists(rows', item.id);
    }
  }

  lemma DeleteExact(rows: seq<Dept>, users: seq<User>, id: Id)
    requires ValidTable(rows, users) && Exists(rows, id)
    ensures ValidTable(Without(rows, id), users) <==>
            && !(exists item :: item in rows && item.parent == Some(id))
            && !(exists u :: u in users && u.dept == Some(id))
  {
    var rows' := Without(rows, id);
    if item :| item in rows && item.parent == Some(id) {
      ParentDeleteBreaksForest(rows, id, item);
    } else {
      LeafDeleteKeepsForest(rows, id);
      WithoutSiblings(rows, id);
      forall x | x != id && Exists(rows, x)
        ensures Exists(rows', x)
      {
        FindUnique(rows', Find(rows, x).value);
      }
      if u :| u in users && u.dept == Some(id) {
        assert !Exists(rows', id);
      }
    }
  }

  /** Rows above the parent bound of a create: the parent must exist at depth below the maximum. */
  ghost predicate Roomy(rows: seq<Dept>, parent: Option<Id>) {
    parent.Some? ==> exists d: nat :: d < MAX_DEPTH && HasDepth(rows, parent.value, d)
  }

  lemma SiblingsAfterAppend(rows: seq<Dept>, row: Dept)
    requires SiblingsDistinct(rows) && !Exists(rows, row.id)
    ensures SiblingsDistinct(rows + [row]) <==> !Taken(rows, row.id, row.parent, row.name)
  {
    var rows' := rows + [row];
    if item :| item in rows && item.parent == row.parent && item.name == row.name {
      var i :| 0 <= i < |rows| && rows[i] == item;
      assert rows'[i] == item && rows'[|rows|] == row;
    } else {
      forall i, j | 0 <= i < j < |rows'| && rows'[i].parent == rows'[j].parent
        ensures rows'[i].name != rows'[j].name
      {
        assert rows'[i] == rows[i] && rows[i] in rows;
      }
    }
  }

  lemma AppendKeys(rows: seq<Dept>, row: Dept)
    requires DistinctIds(rows)
    ensures DistinctIds(rows + [row]) <==> !Exists(rows, row.id)
  {
    var rows' := rows + [row];
    if Exists(rows, row.id) {
      var i :| 0 <= i < |rows| && rows[i] == Find(rows, row.id).value;
      assert rows'[i].id == rows'[|rows|].id;
    } else {
      forall i, j | 0 <= i < j < |rows'|
        ensures rows'[i].id != rows'[j].id
      {
        assert rows'[i] == rows[i] && rows[i] in rows;
      }
    }
  }

  lemma AppendKeepsDepth(rows: seq<Dept>, row: Dept, x: Id, d: nat)
    requires HasDepth(rows, x, d)
    ensures HasDepth(rows + [row], x, d)
  {
    forall y, k: nat | Below(rows, y, x, k) && Exists(rows, y)
      ensures SameParent(rows, rows + [row], y)
    {
      FindAppended(rows, row, y);
    }
    DepthKept(rows, rows + [row], x, d);
  }

  lemma CreateForestExact(rows: seq<Dept>, row: Dept)
    requires Forest(rows)
    ensures Forest(rows + [row]) <==> !Exists(rows, row.id) && Roomy(rows, row.parent)
  {
    hide HasDepth, Roomy;
    var rows' := rows + [row];
    AppendKeys(rows, row);
    if !Exists(rows, row.id) {
      FindAppended(rows, row, row.id);
      CreateRoom(rows, row);
      assert rows'[|rows|] == row;
      forall item | item in rows
        ensures Rooted(rows', item.id)
      {
        var d: nat :| d <= MAX_DEPTH && HasDepth(rows, item.id, d);
        AppendKeepsDepth(rows, row, item.id, d);
      }
    }
  }

  lemma CreateExact(rows: seq<Dept>, users: seq<User>, row: Dept)
    requires ValidTable(rows, users)
    ensures ValidTable(rows + [row], users) <==>
            && !Exists(rows, row.id) && row.name != "" && Roomy(rows, row.parent)
            && !Taken(rows, row.id, row.parent, row.name)
  {
    hide Forest, Roomy, Taken, SiblingsDistinct;
    CreateForestExact(rows, row);
    assert (rows + [row])[|rows|] == row;
    if !Exists(rows, row.id) {
      SiblingsAfterAppend(rows, row);
      forall u | u in users && u.dept.Some?
        ensures Exists(rows + [row], u.dept.value)
      {
        FindAppended(rows, row, u.dept.value);
      }
    }
  }

  lemma CreateRoom(rows: seq<Dept>, row: Dept)
    requires Forest(rows) && !Exists(rows, row.id) && DistinctIds(rows + [row])
    requires Find(rows + [row], row.id) == Some(row)
    ensures Rooted(rows + [row], row.id) <==> Roomy(rows, row.parent)
  {
    hide Forest;
    var rows' := rows + [row];
    if row.parent.None? {
      assert HasDepth(rows', row.id, 1);
    } else {
      var q := row.parent.value;
      if d: nat :| d < MAX_DEPTH && HasDepth(rows, q, d) {
        AppendKeepsDepth(rows, row, q, d);
        assert HasDepth(rows', row.id, d + 1);
      }
      if e: nat :| e <= MAX_DEPTH && HasDepth(rows', row.id, e) {
        assert HasDepth(rows', q, e - 1);
        if q == row.id {
          DepthUnique(rows', q, e, e - 1);
        }
        FindAppended(rows, row, q);
        var d := DepthOf(rows, q);
        AppendKeepsDepth(rows, row, q, d);
        DepthUnique(rows', q, d, e - 1);
      }
    }
  }

  /** The guard of a move in terms of the old table only. */
  ghost predicate Fits(rows: seq<Dept>, id: Id, parent: Option<Id>) {
    parent.Some? ==>
      && Exists(rows, parent.value)
      && parent.value != id
      && !Descendant(rows, id, parent.value)
      && exists d: nat, h: nat :: HasDepth(rows, parent.value, d) && IsHeight(rows, id, h) && d + h <= MAX_DEPTH
  }

  lemma FindMoved(rows: seq<Dept>, id: Id, parent: Option<Id>, x: Id)
    requires DistinctIds(rows) && Exists(rows, x)
    ensures Exists(WithParent(rows, id, parent), x)
    ensures Find(WithParent(rows, id, parent), x).value ==
            if x == id then Find(rows, x).value.(parent := parent) else Find(rows, x).value
  {
    FindUpdated(rows, WithParent(rows, id, parent), x);
  }

  /** Links below the moved department are untouched. */
  lemma {:induction false} SubtreeKept(rows: seq<Dept>, id: Id, parent: Option<Id>, x: Id, n: nat)
    requires Forest(rows) && Below(rows, id, x, n)
    ensures Below(WithParent(rows, id, parent), id, x, n)
    decreases n
  {
    if n > 0 {
      var row :| row in rows && row.id == x && row.parent.Some? && Below(rows, id, row.parent.value, n - 1);
      SubtreeKept(rows, id, parent, row.parent.value, n - 1);
      if x == id {
        assert Descendant(rows, id, id);
        ForestAcyclic(rows, id);
      }
      var i :| 0 <= i < |rows| && rows[i] == row;
      assert WithParent(rows, id, parent)[i] == row;
    }
  }

  /** Chains that do not pass through the moved department keep their depth. */
  lemma OutsideKept(rows: seq<Dept>, id: Id, parent: Option<Id>, x: Id, d: nat)
    requires DistinctIds(rows) && HasDepth(rows, x, d)
    requires !exists n: nat :: Below(rows, id, x, n)
    ensures HasDepth(WithParent(rows, id, parent), x, d)
  {
    forall y, k: nat | Below(rows, y, x, k) && Exists(rows, y)
      ensures SameParent(rows, WithParent(rows, id, parent), y)
    {
      FindMoved(rows, id, parent, y);
    }
    DepthKept(rows, WithParent(rows, id, parent), x, d);
  }

  /** Where any row ends up when the moved department comes to hang at depth `above + 1`. */
  lemma MovedDepth(rows: seq<Dept>, id: Id, parent: Option<Id>, above: nat, h: nat, x: Id)
    requires Forest(rows) && Exists(rows, id) && Exists(rows, x) && IsHeight(rows, id, h) && above + h <= MAX_DEPTH
    requires HasDepth(WithParent(rows, id, parent), id, above + 1)
    ensures Rooted(WithParent(rows, id, parent), x)
  {
    hide Forest, HasDepth, WithParent;
    ForestKeys(rows);
    var rows' := WithParent(rows, id, parent);
    MovedKeys(rows, id, parent);
    if n: nat :| Below(rows, id, x, n) {
      SubtreeKept(rows, id, parent, x, n);
      DepthBelow(rows', id, x, n, above + 1);
    } else {
      var d := DepthOf(rows, x);
      OutsideKept(rows, id, parent, x, d);
    }
  }

  lemma MovedKeys(rows: seq<Dept>, id: Id, parent: Option<Id>)
    requires DistinctIds(rows)
    ensures DistinctIds(WithParent(rows, id, parent)) && SameIds(rows, WithParent(rows, id, parent))
  {
  }

  /** The moved department hangs one level under its new parent. */
  lemma HangsAt(rows: seq<Dept>, id: Id, q: Id, d: nat)
    requires DistinctIds(rows) && Exists(rows, id) && HasDepth(rows, q, d)
    requires q != id && !Descendant(rows, id, q)
    ensures HasDepth(WithParent(rows, id, Some(q)), id, d + 1)
    ensures HasDepth(WithParent(rows, id, Some(q)), q, d)
  {
    OutsideKept(rows, id, Some(q), q, d);
    FindMoved(rows, id, Some(q), id);
  }

  lemma HangingKeepsForest(rows: seq<Dept>, id: Id, parent: Option<Id>, above: nat, h: nat)
    requires Forest(rows) && Exists(rows, id) && IsHeight(rows, id, h) && above + h <= MAX_DEPTH
    requires HasDepth(WithParent(rows, id, parent), id, above + 1)
    ensures Forest(WithParent(rows, id, parent))
  {
    var rows' := WithParent(rows, id, parent);
    forall i | 0 <= i < |rows'|
      ensures Rooted(rows', rows'[i].id)
    {
      FindUnique(rows, rows[i]);
      MovedDepth(rows, id, parent, above, h, rows[i].id);
    }
  }

  lemma HeightBounded(rows: seq<Dept>, id: Id, h: nat)
    requires Forest(rows) && Exists(rows, id) && IsHeight(rows, id, h)
    ensures h <= MAX_DEPTH
  {
    var x, n: nat :| Below(rows, id, x, n) && n + 1 == h;
    ForestShallow(rows, id, x, n);
  }

  lemma MoveKeepsForest(rows: seq<Dept>, id: Id, parent: Option<Id>, h: nat)
    requires Forest(rows) && Exists(rows, id) && IsHeight(rows, id, h) && Fits(rows, id, parent)
    ensures Forest(WithParent(rows, id, parent))
  {
    if parent.Some? {
      var d: nat, e: nat :| HasDepth(rows, parent.value, d) && IsHeight(rows, id, e) && d + e <= MAX_DEPTH;
      HangsAt(rows, id, parent.value, d);
      HangingKeepsForest(rows, id, parent, d, e);
    } else {
      HeightBounded(rows, id, h);
      FindMoved(rows, id, parent, id);
      HangingKeepsForest(rows, id, parent, 0, h);
    }
  }

  /** A move that leaves a forest behind cannot have closed a cycle. */
  lemma ForestMoveOpen(rows: seq<Dept>, id: Id, q: Id)
    requires Forest(rows) && Exists(rows, id) && Forest(WithParent(rows, id, Some(q)))
    ensures Exists(rows, q) && q != id && !Descendant(rows, id, q)
  {
    hide Forest;
    ForestKeys(rows);
    var rows' := WithParent(rows, id, Some(q));
    MovedKeys(rows, id, Some(q));
    FindMoved(rows, id, Some(q), id);
    ParentExists(rows', id);
    FindUpdated(rows, rows', q);
    ForestAcyclic(rows', id);
    assert Below(rows, id, id, 0);
    if n: nat :| Below(rows, id, q, n) {
      SubtreeKept(rows, id, Some(q), q, n);
      CycleCloses(rows', id, q, n);
    }
  }

  lemma CycleCloses(rows: seq<Dept>, id: Id, q: Id, n: nat)
    requires Exists(rows, id) && Find(rows, id).value.parent == Some(q) && Below(rows, id, q, n)
    ensures Descendant(rows, id, id)
  {
    var row := Find(rows, id).value;
    assert row in rows;
    assert Below(rows, id, id, n + 1);
  }

  lemma ForestMoveFits(rows: seq<Dept>, id: Id, q: Id, h: nat)
    requires Forest(rows) && Exists(rows, id) && Forest(WithParent(rows, id, Some(q))) && IsHeight(rows, id, h)
    ensures Fits(rows, id, Some(q))
  {
    hide Forest, HasDepth, WithParent;
    ForestKeys(rows);
    ForestMoveOpen(rows, id, q);
    var d := DepthOf(rows, q);
    HangsAt(rows, id, q, d);
    var x, n: nat :| Below(rows, id, x, n) && n + 1 == h;
    SubtreeKept(rows, id, Some(q), x, n);
    SubtreeDepth(WithParent(rows, id, Some(q)), id, d + 1, x, n);
  }

  /** Every subtree of a forest has a height. */
  lemma {:induction false} HeightExists(rows: seq<Dept>, id: Id, bound: nat) returns (h: nat)
    requires forall x, n: nat :: Below(rows, id, x, n) ==> n <= bound
    ensures IsHeight(rows, id, h)
    decreases bound
  {
    assert Below(rows, id, id, 0);
    if x :| Below(rows, id, x, bound) {
      h := bound + 1;
    } else {
      h := HeightExists(rows, id, bound - 1);
    }
  }

  /** The three checks of a move, taken together, decide exactly whether a forest is left. */
  lemma MoveForestExact(rows: seq<Dept>, id: Id, parent: Option<Id>)
    requires Forest(rows) && Exists(rows, id)
    ensures Forest(WithParent(rows, id, parent)) <==> Fits(rows, id, parent)
  {
    forall x, n: nat | Below(rows, id, x, n)
      ensures n <= MAX_DEPTH
    {
      ForestShallow(rows, id, x, n);
    }
    var h := HeightExists(rows, id, MAX_DEPTH);
    if Forest(WithParent(rows, id, parent)) && parent.Some? {
      ForestMoveFits(rows, id, parent.value, h);
    }
    if Fits(rows, id, parent) {
      MoveKeepsForest(rows, id, parent, h);
    }
  }

  lemma MoveExact(rows: seq<Dept>, users: seq<User>, id: Id, parent: Option<Id>)
    requires ValidTable(rows, users) && Exists(rows, id)
    ensures ValidTable(WithParent(rows, id, parent), users) <==>
            Fits(rows, id, parent) && !Taken(rows, id, parent, Find(rows, id).value.name)
  {
    hide Forest, Fits, Taken, SiblingsDistinct, UsersPlaced;
    var rows' := WithParent(rows, id, parent);
    ForestKeys(rows);
    MoveForestExact(rows, id, parent);
    UsersKept(rows, rows', users);
    var at := MovedAt(rows, id, parent);
    SiblingsAfterUpdate(rows, at, rows[at].(parent := parent));
    assert forall row :: row in rows' ==> row in rows || row == rows'[at];
  }
}
