/** Totals over the rows of a finite table. */
module Sums {
  import opened Arithmetic

  ghost function Sum<K(!new)>(m: map<K, int>): int
    decreases |m|
  {
    if m == map[] then 0
    else
      var k :| k in m;
      m[k] + Sum(m - {k})
  }

  lemma {:induction false} SumPick<K(!new)>(m: map<K, int>, k: K)
    requires k in m
    ensures Sum(m) == m[k] + Sum(m - {k})
    decreases |m|
  {
    var j :| j in m && Sum(m) == m[j] + Sum(m - {j});
    if j != k {
      SumPick(m - {j}, k);
      SumPick(m - {k}, j);
      assert m - {j} - {k} == m - {k} - {j};
    }
  }

  lemma SumUpdate<K(!new)>(m: map<K, int>, k: K, v: int)
    ensures Sum(m[k := v]) == Sum(m) + v - (if k in m then m[k] else 0)
  {
    SumPick(m[k := v], k);
    assert m[k := v] - {k} == m - {k};
    if k in m {
      SumPick(m, k);
    } else {
      assert m - {k} == m;
    }
  }

  /** One column of a table, and its total. */
  ghost function Column<K, V>(m: map<K, V>, f: V -> int): map<K, int> {
    map k | k in m :: f(m[k])
  }

  ghost function Total<K(!new), V>(m: map<K, V>, f: V -> int): int {
    Sum(Column(m, f))
  }

  lemma TotalUpdate<K(!new), V>(m: map<K, V>, f: V -> int, k: K, v: V)
    ensures Total(m[k := v], f) == Total(m, f) + f(v) - (if k in m then f(m[k]) else 0)
  {
    SumUpdate(Column(m, f), k, f(v));
    assert Column(m[k := v], f) == Column(m, f)[k := f(v)];
  }

  lemma {:induction false} SumNonNegative<K(!new)>(m: map<K, int>)
    requires forall k :: k in m ==> m[k] >= 0
    ensures Sum(m) >= 0
    decreases |m|
  {
    if k :| k in m {
      SumPick(m, k);
      SumNonNegative(m - {k});
    }
  }

  /** Part of a table of positive entries totals less than the whole. */
  lemma {:induction false} SumPart<K(!new)>(part: map<K, int>, whole: map<K, int>)
    requires part.Keys <= whole.Keys
    requires forall k :: k in part ==> part[k] == whole[k]
    requires forall k :: k in whole ==> whole[k] > 0
    ensures Sum(part) <= Sum(whole)
    ensures Sum(part) == Sum(whole) <==> part.Keys == whole.Keys
    decreases |whole|
  {
    if k :| k in whole {
      hide Sum;
      SumPick(whole, k);
      assert whole.Keys == (whole - {k}).Keys + {k};
      if k in part {
        SumPick(part, k);
        SumPart(part - {k}, whole - {k});
        assert part.Keys == (part - {k}).Keys + {k};
      } else {
        SumPart(part, whole - {k});
      }
    } else {
      assert part == map[] && whole == map[];
    }
  }

  /** Entries of zero do not count. */
  lemma {:induction false} SumSkipsZeros<K(!new)>(whole: map<K, int>, part: map<K, int>)
    requires part.Keys <= whole.Keys
    requires forall k :: k in whole ==> whole[k] == if k in part then part[k] else 0
    ensures Sum(whole) == Sum(part)
    decreases |whole|
  {
    if k :| k in whole {
      hide Sum;
      SumPick(whole, k);
      assert whole.Keys == (whole - {k}).Keys + {k};
      if k in part {
        SumPick(part, k);
        SumSkipsZeros(whole - {k}, part - {k});
      } else {
        SumSkipsZeros(whole - {k}, part);
      }
    } else {
      assert part == whole;
    }
  }

  lemma SizeWithout<K, V>(m: map<K, V>, k: K)
    requires k in m
    ensures |m| == |m - {k}| + 1
  {
    assert m.Keys == (m - {k}).Keys + {k};
    assert |m.Keys| == |(m - {k}).Keys| + 1;
  }

  lemma {:induction false} SumConstant<K(!new)>(m: map<K, int>, c: int)
    requires forall k :: k in m ==> m[k] == c
    ensures Sum(m) == c * |m|
    decreases |m|
  {
    if k :| k in m {
      SumPick(m, k);
      SizeWithout(m, k);
      SumConstant(m - {k}, c);
      TimesSuccessor(c, |m - {k}|);
    } else {
      assert m == map[];
    }
  }
}
