/**
  LINQ's `OrderBy`/`OrderByDescending(...).ThenBy(...)`: a stable sort by a
  lexicographic two-part rank. A descending key `k` is ranked by `-k`.
*/
module Sorting {

  import Seqs

  /** A sort key: compare `major` first, then `minor`. */
  datatype Rank = Rank(major: int, minor: int)

  predicate RankLe(a: Rank, b: Rank) {
    a.major < b.major || (a.major == b.major && a.minor <= b.minor)
  }

  /** Every element ranks no higher than every later one. */
  predicate SortedBy<T>(s: seq<T>, key: T -> Rank) {
    forall i, j :: 0 <= i < j < |s| ==> RankLe(key(s[i]), key(s[j]))
  }

  /** Places `x` before the first element it does not rank above. */
  function Insert<T>(x: T, s: seq<T>, key: T -> Rank): (r: seq<T>)
    requires SortedBy(s, key)
    ensures SortedBy(r, key)
    ensures multiset(r) == multiset(s) + multiset{x}
    decreases |s|
  {
    if s == [] then [x]
    else if RankLe(key(x), key(s[0])) then [x] + s
    else
      var rest := Insert(x, s[1..], key);
      assert s == [s[0]] + s[1..];
      forall y | y in rest ensures RankLe(key(s[0]), key(y)) {
        assert y in multiset(rest);
        if y != x {
          var j :| 0 <= j < |s[1..]| && s[1..][j] == y;
          assert s[j + 1] == y;
        }
      }
      var r := [s[0]] + rest;
      assert forall j :: 0 < j < |r| ==> r[j] == rest[j - 1];
      r
  }

  /** A stable sort: the sorted permutation of `s`. */
  function SortBy<T>(s: seq<T>, key: T -> Rank): (r: seq<T>)
    ensures SortedBy(r, key)
    ensures multiset(r) == multiset(s)
    ensures |r| == |s|
    decreases |s|
  {
    if s == [] then []
    else
      assert s == [s[0]] + s[1..];
      Insert(s[0], SortBy(s[1..], key), key)
  }

  /** The elements ranked exactly `k`. */
  function RankIs<T>(key: T -> Rank, k: Rank): T -> bool {
    x => key(x) == k
  }

  /** `x` goes in front of every element of its own rank. */
  lemma {:induction false} InsertKeepsTies<T(!new)>(x: T, s: seq<T>, key: T -> Rank, k: Rank)
    requires SortedBy(s, key)
    ensures Seqs.Filter(Insert(x, s, key), RankIs(key, k))
         == (if key(x) == k then [x] else []) + Seqs.Filter(s, RankIs(key, k))
    decreases |s|
  {
    var p := RankIs(key, k);
    if s == [] {
      assert [x][1..] == [];
    } else if RankLe(key(x), key(s[0])) {
      assert ([x] + s)[0] == x && ([x] + s)[1..] == s;
    } else {
      var rest := Insert(x, s[1..], key);
      InsertKeepsTies(x, s[1..], key, k);
      assert ([s[0]] + rest)[0] == s[0] && ([s[0]] + rest)[1..] == rest;
      assert !(p(x) && p(s[0]));
    }
  }

  /** The sort is stable: the elements of any one rank keep their input order. */
  lemma {:induction false} SortIsStable<T(!new)>(s: seq<T>, key: T -> Rank, k: Rank)
    ensures Seqs.Filter(SortBy(s, key), RankIs(key, k)) == Seqs.Filter(s, RankIs(key, k))
    decreases |s|
  {
    if s != [] {
      SortIsStable(s[1..], key, k);
      InsertKeepsTies(s[0], SortBy(s[1..], key), key, k);
    }
  }

  /** Filtering a sorted sequence keeps it sorted. */
  lemma {:induction false} FilterKeepsSorted<T(!new)>(s: seq<T>, key: T -> Rank, p: T -> bool)
    requires SortedBy(s, key)
    ensures SortedBy(Seqs.Filter(s, p), key)
    decreases |s|
  {
    if s != [] {
      FilterKeepsSorted(s[1..], key, p);
      var rest := Seqs.Filter(s[1..], p);
      forall y | y in rest ensures RankLe(key(s[0]), key(y)) {
        var j :| 0 <= j < |s[1..]| && s[1..][j] == y;
        assert s[j + 1] == y;
      }
    }
  }
}
