/**
 The department table and the three walks over it that guard every edit:
 the upward walk `chain_depth`, the worklist `descendants_of` and the
 downward recursion `subtree_height`.
 */
module DepartmentForest {
  import opened Wrappers

  const MAX_DEPTH: nat := 5

  type Id = string

  datatype Dept = Dept(id: Id, name: string, parent: Option<Id>, group: Option<Id>)

  /** The primary key of the table. */
  ghost predicate DistinctIds(rows: seq<Dept>) {
    forall i, j :: 0 <= i < j < |rows| ==> rows[i].id != rows[j].id
  }

  /** First row with the given id. */
  function Find(rows: seq<Dept>, id: Id): (found: Option<Dept>)
    ensures found.Some? ==> found.value in rows && found.value.id == id
    ensures found.None? ==> forall row :: row in rows ==> row.id != id
  {
    if rows == [] then None
    else if rows[0].id == id then Some(rows[0])
    else Find(rows[1..], id)
  }

  predicate Exists(rows: seq<Dept>, id: Id) {
    Find(rows, id).Some?
  }

  lemma FindUnique(rows: seq<Dept>, row: Dept)
    requires DistinctIds(rows) && row in rows
    ensures Find(rows, row.id) == Some(row)
  {
    var found := Find(rows, row.id);
    var i :| 0 <= i < |rows| && rows[i] == row;
    var j :| 0 <= j < |rows| && rows[j] == found.value;
  }

  /** Walking up from `id` meets exactly `d` rows, the last of which has no parent. */
  ghost predicate HasDepth(rows: seq<Dept>, id: Id, d: nat)
    decreases d
  {
    var row := Find(rows, id);
    && row.Some?
    && match row.value.parent
       case None => d == 1
       case Some(p) => d > 1 && HasDepth(rows, p, d - 1)
  }

  ghost predicate Rooted(rows: seq<Dept>, id: Id) {
    exists d: nat :: d <= MAX_DEPTH && HasDepth(rows, id, d)
  }

  /** Keys are unique and every row hangs at most `MAX_DEPTH` rows deep under a root. */
  ghost predicate Forest(rows: seq<Dept>) {
    && DistinctIds(rows)
    && forall row :: row in rows ==> Rooted(rows, row.id)
  }

  /** `x` is reached from `top` by following `n` parent-to-child links. */
  ghost predicate Below(rows: seq<Dept>, top: Id, x: Id, n: nat)
    decreases n
  {
    if n == 0 then x == top
    else exists row :: row in rows && row.id == x && row.parent.Some? && Below(rows, top, row.parent.value, n - 1)
  }

  ghost predicate Descendant(rows: seq<Dept>, top: Id, x: Id) {
    exists n: nat :: n >= 1 && Below(rows, top, x, n)
  }

  lemma {:induction false} DepthUnique(rows: seq<Dept>, id: Id, d: nat, e: nat)
    requires HasDepth(rows, id, d) && HasDepth(rows, id, e)
    ensures d == e
    decreases d
  {
    var row := Find(rows, id).value;
    if row.parent.Some? {
      DepthUnique(rows, row.parent.value, d - 1, e - 1);
    }
  }

  lemma DepthOf(rows: seq<Dept>, id: Id) returns (d: nat)
    requires Forest(rows) && Exists(rows, id)
    ensures d <= MAX_DEPTH && HasDepth(rows, id, d)
  {
    d :| d <= MAX_DEPTH && HasDepth(rows, Find(rows, id).value.id, d);
  }

  lemma ForestKeys(rows: seq<Dept>)
    requires Forest(rows)
    ensures DistinctIds(rows)
  {
  }

  lemma DepthMeansExists(rows: seq<Dept>, id: Id, d: nat)
    requires HasDepth(rows, id, d)
    ensures Exists(rows, id) && d >= 1
    ensures Find(rows, id).value.parent.Some? ==> d > 1 && HasDepth(rows, Find(rows, id).value.parent.value, d - 1)
  {
  }

  /** A chain of `n` links under a row of depth `d` ends at depth `d + n`. */
  lemma {:induction false} DepthBelow(rows: seq<Dept>, top: Id, x: Id, n: nat, d: nat)
    requires DistinctIds(rows) && HasDepth(rows, top, d) && Below(rows, top, x, n)
    ensures HasDepth(rows, x, d + n)
    decreases n
  {
    if n > 0 {
      var row :| row in rows && row.id == x && row.parent.Some? && Below(rows, top, row.parent.value, n - 1);
      FindUnique(rows, row);
      DepthBelow(rows, top, row.parent.value, n - 1, d);
    }
  }

  /** No department of a forest is its own descendant. */
  lemma ForestAcyclic(rows: seq<Dept>, id: Id)
    requires Forest(rows)
    ensures !Descendant(rows, id, id)
  {
    hide Forest, HasDepth;
    if Descendant(rows, id, id) {
      ForestKeys(rows);
      var n: nat :| n >= 1 && Below(rows, id, id, n);
      var d := DepthOf(rows, id);
      DepthBelow(rows, id, id, n, d);
      DepthUnique(rows, id, d, d + n);
    }
  }

  /** In a forest the subtree under a row of depth `d` has no more than `MAX_DEPTH - d + 1` levels. */
  lemma SubtreeDepth(rows: seq<Dept>, id: Id, d: nat, x: Id, n: nat)
    requires Forest(rows) && HasDepth(rows, id, d) && Below(rows, id, x, n)
    ensures d + n <= 5 && Exists(rows, x)
  {
    hide Forest, HasDepth;
    ForestKeys(rows);
    DepthBelow(rows, id, x, n, d);
    DepthMeansExists(rows, x, d + n);
    var e := DepthOf(rows, x);
    DepthUnique(rows, x, d + n, e);
  }

  lemma ParentExists(rows: seq<Dept>, id: Id)
    requires Forest(rows) && Exists(rows, id) && Find(rows, id).value.parent.Some?
    ensures Exists(rows, Find(rows, id).value.parent.value)
  {
    hide Forest, HasDepth;
    var d := DepthOf(rows, id);
    DepthMeansExists(rows, id, d);
    DepthMeansExists(rows, Find(rows, id).value.parent.value, d - 1);
  }

  /** In a forest every parent exists, and a chain of links is shorter than `MAX_DEPTH`. */
  lemma ForestShallow(rows: seq<Dept>, top: Id, x: Id, n: nat)
    requires Forest(rows) && Exists(rows, top) && Below(rows, top, x, n)
    ensures Exists(rows, x) && n < 5
    ensures Find(rows, x).value.parent.Some? ==> Exists(rows, Find(rows, x).value.parent.value)
  {
    hide Forest, HasDepth;
    var d := DepthOf(rows, top);
    DepthMeansExists(rows, top, d);
    SubtreeDepth(rows, top, d, x, n);
    if Find(rows, x).value.parent.Some? {
      ParentExists(rows, x);
    }
  }

  lemma {:induction false} BelowExtend(rows: seq<Dept>, row: Dept, x: Id, n: nat)
    requires row in rows && row.parent.Some? && Below(rows, row.id, x, n)
    ensures Below(rows, row.parent.value, x, n + 1)
    decreases n
  {
    if n == 0 {
      assert Below(rows, row.parent.value, row.parent.value, 0);
    } else {
      var last :| last in rows && last.id == x && last.parent.Some? && Below(rows, row.id, last.parent.value, n - 1);
      BelowExtend(rows, row, last.parent.value, n - 1);
    }
  }

  lemma {:induction false} BelowFirstChild(rows: seq<Dept>, top: Id, x: Id, n: nat)
    requires n > 0 && Below(rows, top, x, n)
    ensures exists child :: child in rows && child.parent == Some(top) && Below(rows, child.id, x, n - 1)
    decreases n
  {
    var last :| last in rows && last.id == x && last.parent.Some? && Below(rows, top, last.parent.value, n - 1);
    if n == 1 {
      assert Below(rows, last.id, x, 0);
    } else {
      BelowFirstChild(rows, top, last.parent.value, n - 1);
      var child :| child in rows && child.parent == Some(top) && Below(rows, child.id, last.parent.value, n - 2);
      assert Below(rows, child.id, x, n - 1);
    }
  }

  /**
   The upward walk. It stops after 33 rows whatever the table looks like; on a row of
   depth at most 32 it returns that depth.
   */
  method ChainDepth(rows: seq<Dept>, id: Option<Id>) returns (depth: nat)
    ensures depth <= 33
    ensures id.None? || !Exists(rows, id.value) ==> depth == 0
    ensures forall d: nat :: id.Some? && d <= 32 && HasDepth(rows, id.value, d) ==> depth == d
  {
    ghost var known := id.Some? && exists d: nat :: d <= 32 && HasDepth(rows, id.value, d);
    ghost var total: nat := 0;
    if known {
      total :| total <= 32 && HasDepth(rows, id.value, total);
    }
    depth := 0;
    var current := match id case None => None case Some(x) => Find(rows, x);
    while current.Some?
      invariant depth <= 33
      invariant id.None? || !Exists(rows, id.value) ==> depth == 0 && current.None?
      invariant current.Some? ==> depth <= 32 && Find(rows, current.value.id) == current
      invariant known && current.None? ==> depth == total
      invariant known && current.Some? ==> depth < total && HasDepth(rows, current.value.id, total - depth)
      decreases 33 - depth
    {
      depth := depth + 1;
      current := match current.value.parent case None => None case Some(p) => Find(rows, p);
      if depth > 32 {
        break;
      }
    }
    forall d: nat | id.Some? && d <= 32 && HasDepth(rows, id.value, d)
      ensures depth == d
    {
      DepthUnique(rows, id.value, d, total);
    }
  }

  /**
   The worklist. It terminates on every table, cyclic ones included, and collects exactly the
   rows reached by one or more links.
   */
  method DescendantsOf(rows: seq<Dept>, id: Id) returns (out: set<Id>)
    ensures forall x :: x in out <==> Descendant(rows, id, x)
  {
    hide Below;
    out := {};
    var queue := [id];
    ghost var ids := set row | row in rows :: row.id;
    ghost var done: set<Id> := {};
    while queue != []
      invariant out <= ids
      invariant forall x :: x in out ==> Descendant(rows, id, x)
      invariant forall x :: x in queue ==> x == id || x in out
      invariant forall x :: x == id || x in out ==> x in done || x in queue
      invariant forall row :: row in rows && row.parent.Some? && row.parent.value in done ==> row.id in out
      decreases ids - out, |queue|
    {
      var current := queue[|queue| - 1];
      queue := queue[..|queue| - 1];
      ghost var rest := queue;
      ghost var seen := out;
      for i := 0 to |rows|
        invariant seen <= out <= ids
        invariant forall x :: x in out ==> Descendant(rows, id, x)
        invariant forall x :: x in queue ==> x == id || x in out
        invariant forall x :: x == id || x in out ==> x in done || x in queue || x == current
        invariant forall row :: row in rows && row.parent.Some? && row.parent.value in done ==> row.id in out
        invariant forall row :: row in rows[..i] && row.parent == Some(current) ==> row.id in out
        invariant out == seen ==> queue == rest
      {
        var row := rows[i];
        if row.parent != Some(current) || row.id in out {
          continue;
        }
        LinkReaches(rows, id, current, row);
        out := out + {row.id};
        queue := queue + [row.id];
      }
      assert rows[..|rows|] == rows;
      done := done + {current};
    }
    forall x, n: nat | n >= 1 && Below(rows, id, x, n)
      ensures x in out
    {
      ClosedReaches(rows, id, out, x, n);
    }
  }

  lemma LinkReaches(rows: seq<Dept>, top: Id, current: Id, row: Dept)
    requires row in rows && row.parent == Some(current)
    requires current == top || Descendant(rows, top, current)
    ensures Descendant(rows, top, row.id)
  {
    if current == top {
      assert Below(rows, top, current, 0);
      assert Below(rows, top, row.id, 1);
    } else {
      var n: nat :| n >= 1 && Below(rows, top, current, n);
      assert Below(rows, top, row.id, n + 1);
    }
  }

  lemma {:induction false} ClosedReaches(rows: seq<Dept>, top: Id, out: set<Id>, x: Id, n: nat)
    requires n >= 1 && Below(rows, top, x, n)
    requires forall row :: row in rows && row.parent.Some? && (row.parent.value == top || row.parent.value in out) ==>
                             row.id in out
    ensures x in out
    decreases n
  {
    var row :| row in rows && row.id == x && row.parent.Some? && Below(rows, top, row.parent.value, n - 1);
    if n > 1 {
      ClosedReaches(rows, top, out, row.parent.value, n - 1);
    }
  }

  /** `h` is the number of levels of the subtree under and including `id`. */
  ghost predicate IsHeight(rows: seq<Dept>, id: Id, h: nat) {
    && (exists x, n: nat :: Below(rows, id, x, n) && n + 1 == h)
    && forall x, n: nat :: Below(rows, id, x, n) ==> n + 1 <= h
  }

  /** What one activation of the recursive walk leaves in the shared `height` variable. */
  ghost predicate Raised(rows: seq<Dept>, current: Id, level: nat, before: nat, after: nat) {
    && before <= after
    && (forall x, n: nat :: Below(rows, current, x, n) ==> level + n <= after)
    && (after == before || exists x, n: nat :: Below(rows, current, x, n) && after == level + n)
  }

  lemma ChildDepth(rows: seq<Dept>, current: Id, child: Dept, depth: nat)
    requires Forest(rows) && HasDepth(rows, current, depth) && child in rows && child.parent == Some(current)
    ensures HasDepth(rows, child.id, depth + 1) && depth + 1 <= MAX_DEPTH
  {
    hide Forest, HasDepth;
    ForestKeys(rows);
    FindUnique(rows, child);
    assert Below(rows, current, current, 0);
    assert Below(rows, current, child.id, 1);
    DepthBelow(rows, current, child.id, 1, depth);
    SubtreeDepth(rows, current, depth, child.id, 1);
  }

  /**
   The recursion over children. Nothing in it bounds the recursion: it ends because in a
   forest each call sits one level deeper and no row sits deeper than `MAX_DEPTH`.
   */
  method Walk(rows: seq<Dept>, current: Id, level: nat, height: nat, ghost depth: nat) returns (raised: nat)
    requires Forest(rows) && HasDepth(rows, current, depth) && depth <= MAX_DEPTH
    ensures Raised(rows, current, level, height, raised)
    decreases MAX_DEPTH - depth
  {
    hide Forest, HasDepth;
    ForestKeys(rows);
    raised := height;
    if level > raised {
      raised := level;
    }
    assert Below(rows, current, current, 0);
    for i := 0 to |rows|
      invariant height <= raised && level <= raised
      invariant forall j :: 0 <= j < i && rows[j].parent == Some(current) ==>
                              forall x, n: nat :: Below(rows, rows[j].id, x, n) ==> level + 1 + n <= raised
      invariant raised == height || exists x, n: nat :: Below(rows, current, x, n) && raised == level + n
    {
      if rows[i].parent == Some(current) {
        ChildDepth(rows, current, rows[i], depth);
        ghost var before := raised;
        raised := Walk(rows, rows[i].id, level + 1, raised, depth + 1);
        if raised != before {
          var x, n: nat :| Below(rows, rows[i].id, x, n) && raised == level + 1 + n;
          BelowExtend(rows, rows[i], x, n);
          assert Below(rows, current, x, n + 1);
        }
      }
    }
    forall x, n: nat | Below(rows, current, x, n)
      ensures level + n <= raised
    {
      if n > 0 {
        BelowFirstChild(rows, current, x, n);
        var child :| child in rows && child.parent == Some(current) && Below(rows, child.id, x, n - 1);
        var j :| 0 <= j < |rows| && rows[j] == child;
      }
    }
  }

  /** Levels of the subtree of `id`; needs the table to be a forest to end at all. */
  method SubtreeHeight(rows: seq<Dept>, id: Id) returns (height: nat)
    requires Forest(rows) && Exists(rows, id)
    ensures IsHeight(rows, id, height)
  {
    ghost var d := DepthOf(rows, id);
    height := Walk(rows, id, 1, 0, d);
    assert Below(rows, id, id, 0);
    ghost var x, n: nat :| Below(rows, id, x, n) && height == 1 + n;
  }
}
