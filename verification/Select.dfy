/**
 Ordered, limited queries over a table: `SELECT ... WHERE ... ORDER BY ... LIMIT n`. The
 order is a strict total order on the selected rows, so the answer is determined by the
 set of rows alone.
 */
module Select {

  function Filter<T(!new)>(rows: seq<T>, keep: T -> bool): (kept: seq<T>)
    ensures forall x :: x in kept <==> x in rows && keep(x)
  {
    if rows == [] then []
    else if keep(rows[0]) then [rows[0]] + Filter(rows[1..], keep)
    else Filter(rows[1..], keep)
  }

  lemma {:induction false} FilterSplit<T(!new)>(one: seq<T>, two: seq<T>, keep: T -> bool)
    ensures Filter(one + two, keep) == Filter(one, keep) + Filter(two, keep)
  {
    if one == [] {
      assert one + two == two;
    } else {
      assert (one + two)[1..] == one[1..] + two;
      FilterSplit(one[1..], two, keep);
    }
  }

  lemma FilterOne<T(!new)>(x: T, keep: T -> bool)
    ensures Filter([x], keep) == if keep(x) then [x] else []
  {
    assert [x][1..] == [];
  }

  function Insert<T(!new)>(x: T, sorted: seq<T>, less: (T, T) -> bool): (r: seq<T>)
    ensures forall y :: y in r <==> y == x || y in sorted
  {
    if sorted == [] then [x]
    else if less(x, sorted[0]) then [x] + sorted
    else [sorted[0]] + Insert(x, sorted[1..], less)
  }

  function Sort<T(!new)>(rows: seq<T>, less: (T, T) -> bool): (r: seq<T>)
    ensures forall y :: y in r <==> y in rows
  {
    if rows == [] then [] else Insert(rows[0], Sort(rows[1..], less), less)
  }

  function Take<T(!new)>(rows: seq<T>, limit: int): seq<T> {
    if limit <= 0 then [] else if limit < |rows| then rows[..limit] else rows
  }

  /** The answer to a query. */
  function Answer<T(!new)>(table: seq<T>, where: T -> bool, less: (T, T) -> bool, limit: int): seq<T> {
    Take(Sort(Filter(table, where), less), limit)
  }

  ghost predicate Sorted<T(!new)>(rows: seq<T>, less: (T, T) -> bool) {
    forall i, j :: 0 <= i < j < |rows| ==> less(rows[i], rows[j])
  }

  /** `less` orders the listed rows strictly and leaves no two of them unordered. */
  ghost predicate Orders<T(!new)>(rows: seq<T>, less: (T, T) -> bool) {
    && (forall x :: x in rows ==> !less(x, x))
    && (forall x, y :: x in rows && y in rows && x != y ==> less(x, y) || less(y, x))
    && (forall x, y, z :: x in rows && y in rows && z in rows && less(x, y) && less(y, z) ==> less(x, z))
  }

  ghost predicate Unrepeated<T(!new)>(rows: seq<T>) {
    forall i, j :: 0 <= i < j < |rows| ==> rows[i] != rows[j]
  }

  lemma {:induction false} InsertSorted<T(!new)>(x: T, sorted: seq<T>, less: (T, T) -> bool)
    requires Sorted(sorted, less) && x !in sorted && Orders([x] + sorted, less)
    ensures Sorted(Insert(x, sorted, less), less)
  {
    if sorted != [] {
      var all := [x] + sorted;
      assert all[0] == x && all[1] == sorted[0];
      if less(x, sorted[0]) {
        forall j | 0 <= j < |sorted|
          ensures less(x, sorted[j])
        {
          assert all[j + 1] == sorted[j];
        }
      } else {
        var rest := sorted[1..];
        InsertSorted(x, rest, less);
        var r := Insert(x, rest, less);
        forall j | 0 <= j < |r|
          ensures less(sorted[0], r[j])
        {
          assert r[j] in r;
          if r[j] != x {
            var k :| 0 <= k < |rest| && rest[k] == r[j];
            assert rest[k] == sorted[k + 1];
          }
        }
      }
    }
  }

  lemma {:induction false} SortSorted<T(!new)>(rows: seq<T>, less: (T, T) -> bool)
    requires Orders(rows, less) && Unrepeated(rows)
    ensures Sorted(Sort(rows, less), less)
  {
    if rows != [] {
      SortSorted(rows[1..], less);
      var tail := Sort(rows[1..], less);
      forall j | 0 <= j < |rows[1..]|
        ensures rows[1..][j] != rows[0]
      {
      }
      InsertSorted(rows[0], tail, less);
    }
  }

  /** Two sorted lists of the same rows are the same list. */
  lemma {:induction false} SortedUnique<T(!new)>(a: seq<T>, b: seq<T>, less: (T, T) -> bool)
    requires Sorted(a, less) && Sorted(b, less) && Orders(a, less)
    requires forall x :: x in a <==> x in b
    ensures a == b
  {
    assert |b| > 0 ==> b[0] in b;
    if a != [] {
      assert a[0] in b;
      assert b != [];
      assert b[0] in a;
      forall x
        ensures x in a[1..] <==> x in b[1..]
      {
        TailMembers(a, x, less);
        TailMembers(b, x, less);
      }
      SortedUnique(a[1..], b[1..], less);
    }
  }

  lemma TailMembers<T(!new)>(a: seq<T>, x: T, less: (T, T) -> bool)
    requires Sorted(a, less) && a != [] && !less(a[0], a[0])
    ensures x in a[1..] <==> x in a && x != a[0]
  {
    if x in a && x != a[0] {
      var i :| 0 <= i < |a| && a[i] == x;
      assert a[1..][i - 1] == x;
    }
  }

  lemma {:induction false} FilterUnrepeated<T(!new)>(rows: seq<T>, keep: T -> bool)
    requires Unrepeated(rows)
    ensures Unrepeated(Filter(rows, keep))
  {
    if rows != [] {
      FilterUnrepeated(rows[1..], keep);
    }
  }

  /** The whole answer of a query without a limit. */
  function Whole<T(!new)>(table: seq<T>, where: T -> bool, less: (T, T) -> bool): seq<T> {
    Sort(Filter(table, where), less)
  }

  lemma WholeSorted<T(!new)>(table: seq<T>, where: T -> bool, less: (T, T) -> bool)
    requires Orders(table, less) && Unrepeated(table)
    ensures Sorted(Whole(table, where, less), less) && Orders(Whole(table, where, less), less)
  {
    FilterUnrepeated(table, where);
    SortSorted(Filter(table, where), less);
  }

  lemma LaterIndex<T(!new)>(rows: seq<T>, less: (T, T) -> bool, i: nat, j: nat)
    requires Sorted(rows, less) && Orders(rows, less) && i < |rows| && j < |rows| && less(rows[i], rows[j])
    ensures i < j
  {
    assert rows[i] in rows && rows[j] in rows;
  }

  /**
   Keyset paging: asking again for the rows that follow the last row seen continues the
   answer exactly where it stopped.
   */
  lemma ContinueAfter<T(!new)>(
    table: seq<T>, where: T -> bool, next: T -> bool, less: (T, T) -> bool, k: nat)
    requires Orders(table, less) && Unrepeated(table)
    requires 0 < k <= |Whole(table, where, less)|
    requires forall x :: x in table ==> next(x) == (where(x) && less(Whole(table, where, less)[k - 1], x))
    ensures Whole(table, next, less) == Whole(table, where, less)[k..]
  {
    var all, rest := Whole(table, where, less), Whole(table, next, less);
    WholeSorted(table, where, less);
    WholeSorted(table, next, less);
    forall x
      ensures x in rest <==> x in all[k..]
    {
    }
    SortedUnique(rest, all[k..], less);
  }

  /** Two conditions that agree on the table give the same answer. */
  lemma SameAnswer<T(!new)>(table: seq<T>, a: T -> bool, b: T -> bool, less: (T, T) -> bool)
    requires forall x :: x in table ==> a(x) == b(x)
    ensures Whole(table, a, less) == Whole(table, b, less)
  {
    SameFilter(table, a, b);
  }

  lemma {:induction false} SameFilter<T(!new)>(table: seq<T>, a: T -> bool, b: T -> bool)
    requires forall x :: x in table ==> a(x) == b(x)
    ensures Filter(table, a) == Filter(table, b)
  {
    if table != [] {
      SameFilter(table[1..], a, b);
    }
  }
}
