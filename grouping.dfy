/** The pandas group-by that every layer of the dashboard relies on, over a
    table modelled as a sequence of rows. A grouping key and a summed metric
    are given as projections `key: R -> K` and `val: R -> int`. pandas
    returns the groups in ascending key order; this model keeps the set of
    groups and each group's total, and states nothing that depends on the
    order of the rows. */
module Grouping {

  predicate Distinct<K(==)>(ks: seq<K>) {
    forall i, j :: 0 <= i < j < |ks| ==> ks[i] != ks[j]
  }

  /** The column sum `df[val].sum()`. */
  function Sum<R>(rows: seq<R>, val: R -> int): int
    decreases |rows|
  {
    if rows == [] then 0 else val(rows[0]) + Sum(rows[1..], val)
  }

  lemma {:induction false} SumNonNegative<R>(rows: seq<R>, val: R -> int)
    requires forall i :: 0 <= i < |rows| ==> val(rows[i]) >= 0
    ensures Sum(rows, val) >= 0
    decreases |rows|
  {
    if rows != [] {
      SumNonNegative(rows[1..], val);
    }
  }

  /** Some row of the table has key k. */
  predicate Occurs<R, K(==)>(rows: seq<R>, key: R -> K, k: K) {
    exists i :: 0 <= i < |rows| && key(rows[i]) == k
  }

  lemma OccursAppend<R, K>(a: seq<R>, b: seq<R>, key: R -> K, k: K)
    ensures Occurs(a + b, key, k) <==> Occurs(a, key, k) || Occurs(b, key, k)
  {
    if Occurs(a + b, key, k) {
      var i :| 0 <= i < |a + b| && key((a + b)[i]) == k;
      if i >= |a| {
        assert key(b[i - |a|]) == k;
      } else {
        assert key(a[i]) == k;
      }
    }
    if Occurs(a, key, k) {
      var i :| 0 <= i < |a| && key(a[i]) == k;
      assert (a + b)[i] == a[i];
    }
    if Occurs(b, key, k) {
      var i :| 0 <= i < |b| && key(b[i]) == k;
      assert (a + b)[|a| + i] == b[i];
      assert key((a + b)[|a| + i]) == k;
    }
  }

  lemma OccursTail<R, K>(rows: seq<R>, key: R -> K, k: K)
    requires rows != []
    ensures Occurs(rows, key, k) <==> key(rows[0]) == k || Occurs(rows[1..], key, k)
  {
    if Occurs(rows, key, k) && key(rows[0]) != k {
      var i :| 0 <= i < |rows| && key(rows[i]) == k;
      assert key(rows[1..][i - 1]) == k;
    }
    if Occurs(rows[1..], key, k) {
      var i :| 0 <= i < |rows[1..]| && key(rows[1..][i]) == k;
      assert key(rows[i + 1]) == k;
    }
  }

  /** The rows whose key is k, in table order: the group of k. */
  function Select<R, K(==)>(rows: seq<R>, key: R -> K, k: K): (s: seq<R>)
    decreases |rows|
  {
    if rows == [] then []
    else if key(rows[0]) == k then [rows[0]] + Select(rows[1..], key, k)
    else Select(rows[1..], key, k)
  }

  /** A group is empty exactly when no row carries its key; otherwise its
      first row is the first row of the table with that key. */
  lemma {:induction false} SelectHead<R, K>(rows: seq<R>, key: R -> K, k: K)
    ensures Select(rows, key, k) == [] <==> !Occurs(rows, key, k)
    ensures Select(rows, key, k) != [] ==>
      exists i :: 0 <= i < |rows| && rows[i] == Select(rows, key, k)[0] && key(rows[i]) == k &&
        forall j :: 0 <= j < i ==> key(rows[j]) != k
    decreases |rows|
  {
    if rows != [] {
      OccursTail(rows, key, k);
      SelectHead(rows[1..], key, k);
      if key(rows[0]) != k && Select(rows, key, k) != [] {
        var i :| 0 <= i < |rows[1..]| && rows[1..][i] == Select(rows[1..], key, k)[0] &&
          key(rows[1..][i]) == k && forall j :: 0 <= j < i ==> key(rows[1..][j]) != k;
        assert rows[i + 1] == Select(rows, key, k)[0];
        assert forall j :: 0 <= j < i + 1 ==> key(rows[j]) != k by {
          forall j | 0 <= j < i + 1 ensures key(rows[j]) != k {
            if j > 0 { assert rows[j] == rows[1..][j - 1]; }
          }
        }
      }
    }
  }

  /** Map lookup with pandas' `fillna(0)`: a missing key reads as zero. */
  function Get<K>(m: map<K, int>, k: K): int {
    if k in m then m[k] else 0
  }

  /** `df.groupby(key)[val].sum()` as one pass that keeps a running total
      per key. */
  function GroupSum<R, K(==)>(rows: seq<R>, key: R -> K, val: R -> int): (g: map<K, int>)
    decreases |rows|
  {
    if rows == [] then map[]
    else
      var g := GroupSum(rows[1..], key, val);
      var k := key(rows[0]);
      g[k := val(rows[0]) + Get(g, k)]
  }

  /** The groups are exactly the keys present in the table, and each group
      holds the sum over its rows; an absent key reads as zero. */
  lemma {:induction false} GroupSumSpec<R, K>(rows: seq<R>, key: R -> K, val: R -> int, k: K)
    ensures k in GroupSum(rows, key, val) <==> Occurs(rows, key, k)
    ensures Get(GroupSum(rows, key, val), k) == Sum(Select(rows, key, k), val)
    decreases |rows|
  {
    if rows != [] {
      OccursTail(rows, key, k);
      GroupSumSpec(rows[1..], key, val, k);
    }
  }

  /** GroupSumSpec for every key at once. */
  lemma GroupSumAll<R, K(!new)>(rows: seq<R>, key: R -> K, val: R -> int)
    ensures forall k :: k in GroupSum(rows, key, val) <==> Occurs(rows, key, k)
    ensures forall k :: Get(GroupSum(rows, key, val), k) == Sum(Select(rows, key, k), val)
  {
    forall k
      ensures k in GroupSum(rows, key, val) <==> Occurs(rows, key, k)
      ensures Get(GroupSum(rows, key, val), k) == Sum(Select(rows, key, k), val)
    {
      GroupSumSpec(rows, key, val, k);
    }
  }

  /** A table whose rows all share one key has at most one group. */
  lemma {:induction false} KeysOfConstant<R, K(!new)>(rows: seq<R>, key: R -> K, k: K)
    requires forall i :: 0 <= i < |rows| ==> key(rows[i]) == k
    ensures |KeysOf(rows, key)| <= 1
    decreases |rows|
  {
    if rows != [] {
      KeysOfConstant(rows[1..], key, k);
      var t := KeysOf(rows[1..], key);
      if t != [] {
        assert t[0] in t;
        assert t[0] == k;
      }
    }
  }

  /** The distinct keys present in the table. */
  function KeysOf<R, K(==,!new)>(rows: seq<R>, key: R -> K): (ks: seq<K>)
    ensures Distinct(ks)
    ensures forall k :: k in ks <==> Occurs(rows, key, k)
    ensures |ks| <= |rows| && (rows != [] ==> ks != [])
    decreases |rows|
  {
    if rows == [] then []
    else
      var t := KeysOf(rows[1..], key);
      var k := key(rows[0]);
      assert forall k' :: Occurs(rows, key, k') <==> k' == k || Occurs(rows[1..], key, k') by {
        forall k' ensures Occurs(rows, key, k') <==> k' == k || Occurs(rows[1..], key, k') {
          OccursTail(rows, key, k');
        }
      }
      if k in t then t else [k] + t
  }

  /** Adding up the group totals over a list of keys. */
  function SumByKey<R, K(==)>(rows: seq<R>, key: R -> K, val: R -> int, ks: seq<K>): int
    decreases |ks|
  {
    if ks == [] then 0 else Sum(Select(rows, key, ks[0]), val) + SumByKey(rows, key, val, ks[1..])
  }

  lemma {:induction false} SumByKeyAbsent<R, K>(r: R, rows: seq<R>, key: R -> K, val: R -> int, ks: seq<K>)
    requires key(r) !in ks
    ensures SumByKey([r] + rows, key, val, ks) == SumByKey(rows, key, val, ks)
    decreases |ks|
  {
    if ks != [] {
      assert ([r] + rows)[1..] == rows;
      SumByKeyAbsent(r, rows, key, val, ks[1..]);
    }
  }

  lemma {:induction false} SumByKeyCons<R, K>(r: R, rows: seq<R>, key: R -> K, val: R -> int, ks: seq<K>)
    requires Distinct(ks) && key(r) in ks
    ensures SumByKey([r] + rows, key, val, ks) == val(r) + SumByKey(rows, key, val, ks)
    decreases |ks|
  {
    assert ([r] + rows)[0] == r && ([r] + rows)[1..] == rows;
    if ks[0] == key(r) {
      assert key(r) !in ks[1..];
      SumByKeyAbsent(r, rows, key, val, ks[1..]);
    } else {
      SumByKeyCons(r, rows, key, val, ks[1..]);
    }
  }

  lemma {:induction false} SumByKeyEmpty<R, K>(key: R -> K, val: R -> int, ks: seq<K>)
    ensures SumByKey([], key, val, ks) == 0
    decreases |ks|
  {
    if ks != [] {
      SumByKeyEmpty(key, val, ks[1..]);
    }
  }

  /** Grouping conserves the total: over a list of distinct keys that covers
      every row, the group totals add up to the column sum. */
  lemma {:induction false} SumByKeyIsTotal<R, K>(rows: seq<R>, key: R -> K, val: R -> int, ks: seq<K>)
    requires Distinct(ks)
    requires forall i :: 0 <= i < |rows| ==> key(rows[i]) in ks
    ensures SumByKey(rows, key, val, ks) == Sum(rows, val)
    decreases |rows|
  {
    if rows == [] {
      SumByKeyEmpty(key, val, ks);
    } else {
      assert rows == [rows[0]] + rows[1..];
      assert key(rows[0]) in ks;
      SumByKeyIsTotal(rows[1..], key, val, ks);
      SumByKeyCons(rows[0], rows[1..], key, val, ks);
    }
  }

  /** One entry of a group-by result: a group's key and its total. */
  datatype Entry<K> = Entry(key: K, total: int)

  /** `df.groupby(key)[val].sum()` as a Series: one entry per group. */
  function Series<R, K(==,!new)>(rows: seq<R>, key: R -> K, val: R -> int): (s: seq<Entry<K>>)
    ensures |s| == |KeysOf(rows, key)|
  {
    var g := GroupSum(rows, key, val);
    var ks := KeysOf(rows, key);
    seq(|ks|, i requires 0 <= i < |ks| => Entry(ks[i], Get(g, ks[i])))
  }

  /** A Series of the table: distinct keys, and an entry for exactly the
      keys present, each carrying the sum over its group. */
  ghost predicate IsGrouping<R, K(!new)>(s: seq<Entry<K>>, rows: seq<R>, key: R -> K, val: R -> int) {
    && (forall i, j :: 0 <= i < j < |s| ==> s[i].key != s[j].key)
    && (forall e :: e in s <==> Occurs(rows, key, e.key) && e.total == Sum(Select(rows, key, e.key), val))
  }

  lemma SeriesSpec<R, K(!new)>(rows: seq<R>, key: R -> K, val: R -> int)
    ensures IsGrouping(Series(rows, key, val), rows, key, val)
    ensures rows != [] ==> Series(rows, key, val) != []
  {
    var s := Series(rows, key, val);
    var ks := KeysOf(rows, key);
    forall e ensures e in s <==> Occurs(rows, key, e.key) && e.total == Sum(Select(rows, key, e.key), val) {
      GroupSumSpec(rows, key, val, e.key);
      if Occurs(rows, key, e.key) && e.total == Sum(Select(rows, key, e.key), val) {
        var i :| 0 <= i < |ks| && ks[i] == e.key;
        assert s[i] == e;
      }
    }
  }
}
