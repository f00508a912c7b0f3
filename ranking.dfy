/** Rankings of group-by results: pandas' `sort_values(ascending=False)`,
    `head(n)` and `idxmax`. */
module Ranking {
  import opened Grouping

  /** Totals never increase along the sequence. */
  predicate NonIncreasing<K>(s: seq<Entry<K>>) {
    forall i, j :: 0 <= i < j < |s| ==> s[i].total >= s[j].total
  }

  /** No entry of a non-empty non-increasing sequence has a larger total
      than its head. */
  lemma HeadBounds<K>(s: seq<Entry<K>>)
    requires s != [] && NonIncreasing(s)
    ensures forall x :: x in s ==> x.total <= s[0].total
  {
    forall x | x in s ensures x.total <= s[0].total {
      var j :| 0 <= j < |s| && s[j] == x;
    }
  }

  /** A head no smaller than anything after it extends a non-increasing
      sequence. */
  lemma ConsNonIncreasing<K>(h: Entry<K>, t: seq<Entry<K>>)
    requires NonIncreasing(t)
    requires forall x :: x in t ==> x.total <= h.total
    ensures NonIncreasing([h] + t)
  {
    var r := [h] + t;
    forall i, j | 0 <= i < j < |r| ensures r[i].total >= r[j].total {
      assert r[j] == t[j - 1];
      if i > 0 {
        assert r[i] == t[i - 1];
      }
    }
  }

  /** Inserts e before the first entry with a total no larger than its own. */
  function InsertDesc<K(==)>(e: Entry<K>, s: seq<Entry<K>>): (r: seq<Entry<K>>)
    requires NonIncreasing(s)
    ensures NonIncreasing(r)
    ensures multiset(r) == multiset(s) + multiset{e}
    decreases |s|
  {
    if s == [] then [e]
    else if s[0].total <= e.total then
      HeadBounds(s);
      ConsNonIncreasing(e, s);
      [e] + s
    else
      var t := InsertDesc(e, s[1..]);
      assert s == [s[0]] + s[1..];
      assert forall x :: x in t ==> x.total <= s[0].total by {
        HeadBounds(s);
        forall x | x in t ensures x.total <= s[0].total {
          assert x in multiset(t);
          assert x == e || x in s[1..];
        }
      }
      ConsNonIncreasing(s[0], t);
      [s[0]] + t
  }

  /** `sort_values(ascending=False)`. pandas' default sort is not stable, so
      the order among equal totals is unspecified; this one is a choice. */
  function SortDesc<K(==)>(s: seq<Entry<K>>): (r: seq<Entry<K>>)
    ensures NonIncreasing(r)
    ensures multiset(r) == multiset(s)
    decreases |s|
  {
    if s == [] then []
    else
      assert s == [s[0]] + s[1..];
      InsertDesc(s[0], SortDesc(s[1..]))
  }

  function Min(a: int, b: int): int {
    if a <= b then a else b
  }

  /** `sort_values(ascending=False).head(n)`. */
  function TopN<K(==)>(s: seq<Entry<K>>, n: nat): (r: seq<Entry<K>>)
    ensures |r| == Min(n, |s|)
    ensures NonIncreasing(r)
  {
    SortDescLength(s);
    var t := SortDesc(s);
    t[..Min(n, |t|)]
  }

  /** Ranking keeps every entry. */
  lemma SortDescLength<K>(s: seq<Entry<K>>)
    ensures |SortDesc(s)| == |s|
  {
    assert |multiset(SortDesc(s))| == |multiset(s)|;
  }

  lemma PrefixIncluded<K>(t: seq<Entry<K>>, m: nat)
    requires m <= |t|
    ensures multiset(t[..m]) <= multiset(t)
  {
    assert t == t[..m] + t[m..];
  }

  /** In a non-increasing sequence nothing past position m exceeds anything
      before it. */
  lemma Dominates<K>(t: seq<Entry<K>>, m: nat)
    requires NonIncreasing(t) && m <= |t|
    ensures forall e, x :: e in t && e !in t[..m] && x in t[..m] ==> e.total <= x.total
  {
    forall e, x | e in t && e !in t[..m] && x in t[..m] ensures e.total <= x.total {
      var j :| 0 <= j < |t| && t[j] == e;
      var i :| 0 <= i < m && t[..m][i] == x;
      assert forall k :: 0 <= k < m ==> t[..m][k] == t[k];
      assert j >= m;
    }
  }

  /** The first n entries of the ranking: as many as there are, at most n,
      in non-increasing order, all taken from the input, and no entry left
      out has a larger total than one that is listed. */
  lemma TopNSpec<K>(s: seq<Entry<K>>, n: nat)
    ensures |TopN(s, n)| == Min(n, |s|)
    ensures NonIncreasing(TopN(s, n))
    ensures multiset(TopN(s, n)) <= multiset(s)
    ensures forall e, x :: e in s && e !in TopN(s, n) && x in TopN(s, n) ==> e.total <= x.total
  {
    var t := SortDesc(s);
    SortDescLength(s);
    PrefixIncluded(t, Min(n, |t|));
    Dominates(t, Min(n, |t|));
    assert forall e :: e in s ==> e in t by {
      forall e | e in s ensures e in t {
        assert e in multiset(s);
      }
    }
  }

  /** The first entry of the descending ranking has the largest total. */
  lemma SortDescHead<K>(s: seq<Entry<K>>)
    requires s != []
    ensures |SortDesc(s)| == |s|
    ensures SortDesc(s)[0] in s
    ensures forall e :: e in s ==> e.total <= SortDesc(s)[0].total
  {
    var t := SortDesc(s);
    assert |t| == |multiset(t)| == |multiset(s)| == |s|;
    assert t[0] in multiset(s);
    forall e | e in s ensures e.total <= t[0].total {
      assert e in multiset(t);
    }
  }

  /** `idxmax` over a Series with ascending integer keys: the entry of the
      largest total, and among equal totals the one with the smallest key. */
  function PeakEntry(s: seq<Entry<int>>): (r: Entry<int>)
    requires s != []
    ensures r in s
    ensures forall e :: e in s ==> e.total <= r.total
    ensures forall e :: e in s && e.total == r.total ==> r.key <= e.key
    decreases |s|
  {
    if |s| == 1 then s[0]
    else
      var best := PeakEntry(s[1..]);
      assert s == [s[0]] + s[1..];
      if s[0].total > best.total || (s[0].total == best.total && s[0].key <= best.key) then s[0]
      else best
  }

  /** The maximum of a non-empty list of integers: Python's `max`. */
  function Max(xs: seq<int>): (m: int)
    requires xs != []
    ensures m in xs
    ensures forall x :: x in xs ==> x <= m
    decreases |xs|
  {
    if |xs| == 1 then xs[0]
    else
      var t := Max(xs[1..]);
      assert xs == [xs[0]] + xs[1..];
      if xs[0] >= t then xs[0] else t
  }

  /** No key is listed twice. */
  ghost predicate KeysDistinct<K>(s: seq<Entry<K>>) {
    forall i, j :: 0 <= i < j < |s| ==> s[i].key != s[j].key
  }

  lemma {:induction false} CountAtMostOne<K>(s: seq<Entry<K>>, x: Entry<K>)
    requires KeysDistinct(s)
    ensures multiset(s)[x] <= 1
  {
    if s != [] {
      assert s == [s[0]] + s[1..];
      assert KeysDistinct(s[1..]) by {
        forall i, j | 0 <= i < j < |s[1..]| ensures s[1..][i].key != s[1..][j].key {
          assert s[1..][i] == s[i + 1] && s[1..][j] == s[j + 1];
        }
      }
      CountAtMostOne(s[1..], x);
      if s[0] == x {
        assert forall j :: 0 <= j < |s[1..]| ==> s[1..][j] == s[j + 1];
        assert x !in s[1..];
      }
    }
  }

  lemma CountOfRepeat<K>(r: seq<Entry<K>>, i: nat, j: nat)
    requires i < j < |r| && r[i] == r[j]
    ensures multiset(r)[r[i]] >= 2
  {
    assert r == r[..j] + r[j..];
    assert r[i] == r[..j][i];
    assert r[j] == r[j..][0];
  }

  /** Reordering a list with distinct keys keeps its keys distinct. */
  lemma PermutationKeysDistinct<K>(s: seq<Entry<K>>, r: seq<Entry<K>>)
    requires KeysDistinct(s) && multiset(r) == multiset(s)
    ensures KeysDistinct(r)
  {
    forall i, j | 0 <= i < j < |r| ensures r[i].key != r[j].key {
      assert r[i] in multiset(s) && r[j] in multiset(s);
      if r[i] == r[j] {
        CountOfRepeat(r, i, j);
        CountAtMostOne(s, r[i]);
      } else {
        var a :| 0 <= a < |s| && s[a] == r[i];
        var b :| 0 <= b < |s| && s[b] == r[j];
        assert a != b;
      }
    }
  }
}
