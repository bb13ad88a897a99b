/** Ordering rows by an integer column that may be NULL, as SQLite's
    `ORDER BY ... ASC` does (NULL first), and as JavaScript's stable
    `Array.prototype.sort` does with a numeric comparator.
 */
module Sorting {

  /** A sort key: SQL NULL, or a number. */
  datatype Rank = Null | Val(v: int)

  /** The ascending order of keys: NULL before every number. */
  predicate RankLe(a: Rank, b: Rank) {
    a.Null? || (b.Val? && a.v <= b.v)
  }

  lemma RankLeTotalPreorder(a: Rank, b: Rank, c: Rank)
    ensures RankLe(a, a)
    ensures RankLe(a, b) || RankLe(b, a)
    ensures RankLe(a, b) && RankLe(b, c) ==> RankLe(a, c)
  {
  }

  predicate SortedBy<T>(s: seq<T>, key: T -> Rank) {
    forall i, j :: 0 <= i < j < |s| ==> RankLe(key(s[i]), key(s[j]))
  }

  /** A sequence without repeated elements holds each value at most once
      as a multiset. */
  lemma {:induction false} DistinctCount<T>(s: seq<T>)
    requires forall i, j :: 0 <= i < j < |s| ==> s[i] != s[j]
    ensures forall x :: multiset(s)[x] <= 1
  {
    if |s| > 0 {
      DistinctCount(s[1..]);
      assert s == [s[0]] + s[1..];
      assert s[0] !in s[1..];
    }
  }

  /** Inserts `x` right after the last element whose key does not exceed
      `x`'s, so `x` follows every element of equal key already present. */
  function InsertByKey<T>(s: seq<T>, x: T, key: T -> Rank): (r: seq<T>)
    ensures |r| == |s| + 1
    ensures multiset(r) == multiset(s) + multiset{x}
  {
    if |s| == 0 then [x]
    else if RankLe(key(s[|s| - 1]), key(x)) then s + [x]
    else
      var init := s[..|s| - 1];
      assert s == init + [s[|s| - 1]];
      InsertByKey(init, x, key) + [s[|s| - 1]]
  }

  lemma {:induction false} InsertByKeySorted<T>(s: seq<T>, x: T, key: T -> Rank)
    requires SortedBy(s, key)
    ensures SortedBy(InsertByKey(s, x, key), key)
    decreases |s|
  {
    if |s| > 0 && !RankLe(key(s[|s| - 1]), key(x)) {
      var init := s[..|s| - 1];
      var last := s[|s| - 1];
      InsertByKeySorted(init, x, key);
      var r := InsertByKey(init, x, key);
      assert multiset(r) == multiset(init) + multiset{x};
      forall i | 0 <= i < |r| ensures RankLe(key(r[i]), key(last)) {
        assert r[i] in multiset(r);
        if r[i] == x {
          RankLeTotalPreorder(key(x), key(last), key(last));
        } else {
          assert r[i] in multiset(init);
          var k :| 0 <= k < |init| && init[k] == r[i];
          assert s[k] == init[k];
        }
      }
      forall i, j | 0 <= i < j < |r + [last]| ensures RankLe(key((r + [last])[i]), key((r + [last])[j])) {
        if j == |r| {
          assert (r + [last])[i] == r[i];
        } else {
          assert (r + [last])[i] == r[i] && (r + [last])[j] == r[j];
        }
      }
    } else if |s| > 0 {
      forall i, j | 0 <= i < j < |s + [x]| ensures RankLe(key((s + [x])[i]), key((s + [x])[j])) {
        if j == |s| {
          RankLeTotalPreorder(key(s[i]), key(s[|s| - 1]), key(x));
        }
      }
    }
  }

  /** Insertion sort by key: the first `|s| - 1` elements sorted, then the
      last one inserted. */
  function SortBy<T>(s: seq<T>, key: T -> Rank): (r: seq<T>)
    ensures |r| == |s|
    ensures multiset(r) == multiset(s)
  {
    if |s| == 0 then []
    else
      var init := s[..|s| - 1];
      assert s == init + [s[|s| - 1]];
      InsertByKey(SortBy(init, key), s[|s| - 1], key)
  }

  /** The result is ordered by key and is a permutation of the input. */
  lemma {:induction false} SortBySorted<T>(s: seq<T>, key: T -> Rank)
    ensures SortedBy(SortBy(s, key), key)
    ensures multiset(SortBy(s, key)) == multiset(s)
  {
    if |s| > 0 {
      SortBySorted(s[..|s| - 1], key);
      InsertByKeySorted(SortBy(s[..|s| - 1], key), s[|s| - 1], key);
    }
  }

  /** An input already in order comes out unchanged. */
  lemma {:induction false} SortByOfSorted<T>(s: seq<T>, key: T -> Rank)
    requires SortedBy(s, key)
    ensures SortBy(s, key) == s
  {
    if |s| > 0 {
      var init := s[..|s| - 1];
      assert SortedBy(init, key);
      SortByOfSorted(init, key);
      if |init| > 0 {
        assert RankLe(key(init[|init| - 1]), key(s[|s| - 1]));
      }
      assert init + [s[|s| - 1]] == s;
    }
  }
}
