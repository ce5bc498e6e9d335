/** `Array.prototype.sort` with a comparator that orders by a pair of integers. Since
    ES2019 that sort is stable, so equal keys keep their input order. The model is a
    stable insertion sort; its three properties (sorted, a permutation, stable) are the
    lemmas at the end. */
module StableSort {

  /** A sort key compared lexicographically: `major` first, then `minor`. */
  datatype Rank = Rank(major: int, minor: int)

  predicate RankLe(a: Rank, b: Rank) {
    a.major < b.major || (a.major == b.major && a.minor <= b.minor)
  }

  predicate SortedOn<T>(s: seq<T>, key: T -> Rank) {
    forall i, j :: 0 <= i < j < |s| ==> RankLe(key(s[i]), key(s[j]))
  }

  /** The elements of `s` whose key is `k`, in their order in `s`. */
  function WithRank<T>(s: seq<T>, key: T -> Rank, k: Rank): seq<T>
  {
    if s == [] then []
    else (if key(s[0]) == k then [s[0]] else []) + WithRank(s[1..], key, k)
  }

  /** Inserts `x` after every element whose key is not greater than its own. */
  function InsertOn<T>(s: seq<T>, x: T, key: T -> Rank): (r: seq<T>)
    ensures multiset(r) == multiset(s) + multiset{x}
  {
    if s == [] then [x]
    else if !RankLe(key(s[0]), key(x)) then [x] + s
    else
      assert s == [s[0]] + s[1..];
      [s[0]] + InsertOn(s[1..], x, key)
  }

  /** Stable insertion sort: each element in turn is inserted into the sorted prefix. */
  function SortOn<T>(s: seq<T>, key: T -> Rank): (r: seq<T>)
    ensures multiset(r) == multiset(s)
  {
    if s == [] then []
    else
      assert s == s[..|s| - 1] + [s[|s| - 1]];
      InsertOn(SortOn(s[..|s| - 1], key), s[|s| - 1], key)
  }

  lemma {:induction false} InsertOnSorted<T>(s: seq<T>, x: T, key: T -> Rank)
    requires SortedOn(s, key)
    ensures SortedOn(InsertOn(s, x, key), key)
  {
    if s != [] && RankLe(key(s[0]), key(x)) {
      InsertOnSorted(s[1..], x, key);
      var r := InsertOn(s, x, key);
      forall j | 0 < j < |r| ensures RankLe(key(r[0]), key(r[j])) {
        var y := r[j];
        assert y in multiset(s[1..]) + multiset{x};
        if y != x {
          var k :| 0 <= k < |s[1..]| && s[1..][k] == y;
          assert s[k + 1] == y;
        }
      }
    }
  }

  lemma {:induction false} WithRankNone<T>(s: seq<T>, key: T -> Rank, k: Rank)
    requires forall i :: 0 <= i < |s| ==> key(s[i]) != k
    ensures WithRank(s, key, k) == []
  {
    if s != [] { WithRankNone(s[1..], key, k); }
  }

  lemma {:induction false} WithRankAppend<T>(a: seq<T>, b: seq<T>, key: T -> Rank, k: Rank)
    ensures WithRank(a + b, key, k) == WithRank(a, key, k) + WithRank(b, key, k)
  {
    if a == [] {
      assert a + b == b;
    } else {
      assert (a + b)[1..] == a[1..] + b;
      WithRankAppend(a[1..], b, key, k);
    }
  }

  lemma {:induction false} InsertOnStable<T>(s: seq<T>, x: T, key: T -> Rank, k: Rank)
    requires SortedOn(s, key)
    ensures WithRank(InsertOn(s, x, key), key, k)
         == WithRank(s, key, k) + (if key(x) == k then [x] else [])
  {
    if s == [] {
      WithRankCons(x, [], key, k);
    } else if !RankLe(key(s[0]), key(x)) {
      InsertFrontStable(s, x, key, k);
    } else {
      SortedTail(s, key);
      InsertOnStable(s[1..], x, key, k);
      InsertLaterStable(s, x, key, k);
    }
  }

  /** `x` goes first: every element of `s` has a greater key, so none has the key of `x`. */
  lemma InsertFrontStable<T>(s: seq<T>, x: T, key: T -> Rank, k: Rank)
    requires s != [] && !RankLe(key(s[0]), key(x)) && SortedOn(s, key)
    ensures WithRank(InsertOn(s, x, key), key, k)
         == WithRank(s, key, k) + (if key(x) == k then [x] else [])
  {
    assert InsertOn(s, x, key) == [x] + s;
    WithRankCons(x, s, key, k);
    if key(x) == k {
      forall i | 0 <= i < |s| ensures key(s[i]) != k {
        assert RankLe(key(s[0]), key(s[i]));
      }
      WithRankNone(s, key, k);
      assert [x] + [] == [] + [x];
    } else {
      assert [] + WithRank(s, key, k) == WithRank(s, key, k) + [];
    }
  }

  /** `x` goes after the first element: the first element is kept in front. */
  lemma InsertLaterStable<T>(s: seq<T>, x: T, key: T -> Rank, k: Rank)
    requires s != [] && RankLe(key(s[0]), key(x))
    requires WithRank(InsertOn(s[1..], x, key), key, k)
          == WithRank(s[1..], key, k) + (if key(x) == k then [x] else [])
    ensures WithRank(InsertOn(s, x, key), key, k)
         == WithRank(s, key, k) + (if key(x) == k then [x] else [])
  {
    var y, rest := s[0], s[1..];
    var tail: seq<T> := if key(x) == k then [x] else [];
    var head: seq<T> := if key(y) == k then [y] else [];
    assert InsertOn(s, x, key) == [y] + InsertOn(rest, x, key);
    assert WithRank(s, key, k) == head + WithRank(rest, key, k);
    WithRankCons(y, InsertOn(rest, x, key), key, k);
    AppendAssoc(head, WithRank(rest, key, k), tail);
  }

  lemma WithRankCons<T>(x: T, s: seq<T>, key: T -> Rank, k: Rank)
    ensures WithRank([x] + s, key, k) == (if key(x) == k then [x] else []) + WithRank(s, key, k)
  {
    assert ([x] + s)[1..] == s;
  }

  lemma SortedTail<T>(s: seq<T>, key: T -> Rank)
    requires s != [] && SortedOn(s, key)
    ensures SortedOn(s[1..], key)
  {
    forall i, j | 0 <= i < j < |s[1..]| ensures RankLe(key(s[1..][i]), key(s[1..][j])) {
      assert s[1..][i] == s[i + 1] && s[1..][j] == s[j + 1];
    }
  }

  /** The sort orders by key. */
  lemma {:induction false} SortOnSorted<T>(s: seq<T>, key: T -> Rank)
    ensures SortedOn(SortOn(s, key), key)
  {
    if s != [] {
      SortOnSorted(s[..|s| - 1], key);
      InsertOnSorted(SortOn(s[..|s| - 1], key), s[|s| - 1], key);
    }
  }

  /** The sort keeps, for every key, the elements with that key in their input order. */
  lemma {:induction false} SortOnStable<T>(s: seq<T>, key: T -> Rank, k: Rank)
    ensures WithRank(SortOn(s, key), key, k) == WithRank(s, key, k)
  {
    if s != [] {
      var init, x := s[..|s| - 1], s[|s| - 1];
      var sorted := SortOn(init, key);
      var tail: seq<T> := if key(x) == k then [x] else [];
      assert s == init + [x];
      assert SortOn(s, key) == InsertOn(sorted, x, key);
      SortOnStable(init, key, k);
      SortOnSorted(init, key);
      InsertOnStable(sorted, x, key, k);
      assert WithRank(SortOn(s, key), key, k) == WithRank(init, key, k) + tail;
      WithRankSnoc(init, x, key, k);
    }
  }

  lemma WithRankSnoc<T>(init: seq<T>, x: T, key: T -> Rank, k: Rank)
    ensures WithRank(init + [x], key, k) == WithRank(init, key, k) + (if key(x) == k then [x] else [])
  {
    WithRankAppend(init, [x], key, k);
    assert WithRank([x], key, k) == (if key(x) == k then [x] else []) + WithRank([x][1..], key, k);
  }

  lemma AppendAssoc<T>(a: seq<T>, b: seq<T>, c: seq<T>)
    ensures a + (b + c) == (a + b) + c
  {
  }
}
