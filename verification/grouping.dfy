/**
  LINQ's `GroupBy(key)`: one group per distinct key, in the order the keys first
  appear, each group holding its elements in input order.
*/
module Grouping {

  import opened Seqs
  import opened Sorting

  datatype Group<T> = Group(key: int, items: seq<T>)

  /** The elements whose key is `k`, in input order. */
  function WithKey<T(!new)>(s: seq<T>, key: T -> int, k: int): seq<T> {
    Filter(s, x => key(x) == k)
  }

  /** The elements whose key is not `k`, in input order. */
  function WithoutKey<T(!new)>(s: seq<T>, key: T -> int, k: int): seq<T> {
    Filter(s, x => key(x) != k)
  }

  /** The groups' items, concatenated in group order. */
  function Flatten<T>(gs: seq<Group<T>>): seq<T>
    decreases |gs|
  {
    if gs == [] then [] else gs[0].items + Flatten(gs[1..])
  }

  /**
    `s.GroupBy(key)`: each group holds exactly the input's elements with its key,
    in input order, and no group is empty.
  */
  function GroupBy<T(!new)>(s: seq<T>, key: T -> int): (r: seq<Group<T>>)
    ensures forall i :: 0 <= i < |r| ==> r[i].items == WithKey(s, key, r[i].key)
    ensures forall i :: 0 <= i < |r| ==> |r[i].items| > 0
    decreases |s|
  {
    if s == [] then []
    else
      var k := key(s[0]);
      RestIsShorter(s, key);
      var tail := GroupBy(WithoutKey(s, key, k), key);
      TailGroupsKeepKeys(s, key, k, tail);
      var here := WithKey(s, key, k);
      assert s[0] in here;
      var r := [Group(k, here)] + tail;
      assert forall i :: 0 < i < |r| ==> r[i] == tail[i - 1];
      r
  }

  /** Setting aside the first element's key leaves a shorter sequence. */
  lemma RestIsShorter<T(!new)>(s: seq<T>, key: T -> int)
    requires s != []
    ensures |WithoutKey(s, key, key(s[0]))| < |s|
  {
    assert s == [s[0]] + s[1..];
    assert WithoutKey(s, key, key(s[0])) == WithoutKey(s[1..], key, key(s[0]));
  }

  /** A group of the elements without key `k` is also a group of all elements. */
  lemma TailGroupsKeepKeys<T(!new)>(s: seq<T>, key: T -> int, k: int, tail: seq<Group<T>>)
    requires forall i :: 0 <= i < |tail| ==> tail[i].items == WithKey(WithoutKey(s, key, k), key, tail[i].key)
    requires forall i :: 0 <= i < |tail| ==> |tail[i].items| > 0
    ensures forall i :: 0 <= i < |tail| ==> tail[i].key != k && tail[i].items == WithKey(s, key, tail[i].key)
  {
    forall i | 0 <= i < |tail|
      ensures tail[i].key != k && tail[i].items == WithKey(s, key, tail[i].key)
    {
      assert tail[i].items[0] in WithoutKey(s, key, k);
      WithKeyOfWithoutKey(s, key, k, tail[i].key);
    }
  }

  /** The groups' keys are pairwise distinct. */
  lemma {:induction false} GroupKeysDistinct<T(!new)>(s: seq<T>, key: T -> int)
    ensures forall i, j :: 0 <= i < j < |GroupBy(s, key)| ==> GroupBy(s, key)[i].key != GroupBy(s, key)[j].key
    decreases |s|
  {
    if s != [] {
      var k := key(s[0]);
      RestIsShorter(s, key);
      var rest := WithoutKey(s, key, k);
      GroupKeysDistinct(rest, key);
      var tail := GroupBy(rest, key);
      TailGroupsKeepKeys(s, key, k, tail);
      assert GroupBy(s, key) == [Group(k, WithKey(s, key, k))] + tail;
    }
  }

  /** Some group has key `k`. */
  predicate HasGroup<T>(r: seq<Group<T>>, k: int) {
    exists i :: 0 <= i < |r| && r[i].key == k
  }

  /** Every input element's key has a group. */
  lemma {:induction false} GroupsCoverKeys<T(!new)>(s: seq<T>, key: T -> int)
    ensures forall x :: x in s ==> HasGroup(GroupBy(s, key), key(x))
    decreases |s|
  {
    if s != [] {
      var k := key(s[0]);
      RestIsShorter(s, key);
      var rest := WithoutKey(s, key, k);
      GroupsCoverKeys(rest, key);
      var tail := GroupBy(rest, key);
      var r := GroupBy(s, key);
      assert r == [Group(k, WithKey(s, key, k))] + tail;
      assert r[0].key == k;
      forall x | x in s ensures HasGroup(r, key(x)) {
        if key(x) != k {
          assert x in rest;
          assert HasGroup(tail, key(x));
          var i :| 0 <= i < |tail| && tail[i].key == key(x);
          assert r[i + 1] == tail[i];
        }
      }
    }
  }

  /** Grouping loses and invents nothing: the groups hold a permutation of the input. */
  lemma {:induction false} GroupingIsLossless<T(!new)>(s: seq<T>, key: T -> int)
    ensures multiset(Flatten(GroupBy(s, key))) == multiset(s)
    decreases |s|
  {
    if s != [] {
      var k := key(s[0]);
      RestIsShorter(s, key);
      var here := WithKey(s, key, k);
      var rest := WithoutKey(s, key, k);
      GroupingIsLossless(rest, key);
      var tail := GroupBy(rest, key);
      var r := GroupBy(s, key);
      assert r == [Group(k, here)] + tail;
      assert r[1..] == tail;
      assert Flatten(r) == here + Flatten(tail);
      KeySplit(s, key, k);
    }
  }

  /** The elements with key `k` and those without it make up the whole input. */
  lemma KeySplit<T(!new)>(s: seq<T>, key: T -> int, k: int)
    ensures multiset(WithKey(s, key, k)) + multiset(WithoutKey(s, key, k)) == multiset(s)
  {
    FilterMultiset(s, x => key(x) == k);
    FilterMultiset(s, x => key(x) != k);
    assert forall x :: (multiset(WithKey(s, key, k)) + multiset(WithoutKey(s, key, k)))[x] == multiset(s)[x];
  }

  /** Dropping key `k` does not change which elements have another key `k'`. */
  lemma {:induction false} WithKeyOfWithoutKey<T(!new)>(s: seq<T>, key: T -> int, k: int, k': int)
    requires k != k'
    ensures WithKey(WithoutKey(s, key, k), key, k') == WithKey(s, key, k')
    decreases |s|
  {
    if s != [] {
      assert WithoutKey(s, key, k) == (if key(s[0]) != k then [s[0]] else []) + WithoutKey(s[1..], key, k);
      WithKeyOfWithoutKey(s[1..], key, k, k');
    }
  }

  /** The groups' keys strictly decrease. */
  predicate KeysDescending<T>(r: seq<Group<T>>) {
    forall i, j :: 0 <= i < j < |r| ==> r[i].key > r[j].key
  }

  /**
    When the input is ordered by descending key (its rank's major part is the
    negated key), the groups come out in strictly descending key order.
  */
  lemma {:induction false} GroupKeysDescending<T(!new)>(s: seq<T>, key: T -> int, rank: T -> Rank)
    requires forall x :: rank(x).major == -key(x)
    requires SortedBy(s, rank)
    ensures KeysDescending(GroupBy(s, key))
    decreases |s|
  {
    if s != [] {
      var k := key(s[0]);
      RestIsShorter(s, key);
      var rest := WithoutKey(s, key, k);
      FilterKeepsSorted(s, rank, x => key(x) != k);
      GroupKeysDescending(rest, key, rank);
      var tail := GroupBy(rest, key);
      forall i | 0 <= i < |tail| ensures tail[i].key < k {
        var y := tail[i].items[0];
        assert y in rest;
        var j :| 0 <= j < |s| && s[j] == y;
        if j > 0 {
          assert RankLe(rank(s[0]), rank(s[j]));
        }
      }
      var r := GroupBy(s, key);
      assert r == [Group(k, WithKey(s, key, k))] + tail;
      assert forall i :: 0 < i < |r| ==> r[i] == tail[i - 1];
    }
  }

  /** Each group of a sorted input is itself sorted. */
  lemma GroupItemsSorted<T(!new)>(s: seq<T>, key: T -> int, rank: T -> Rank)
    requires SortedBy(s, rank)
    ensures forall i :: 0 <= i < |GroupBy(s, key)| ==> SortedBy(GroupBy(s, key)[i].items, rank)
  {
    var r := GroupBy(s, key);
    forall i | 0 <= i < |r| ensures SortedBy(r[i].items, rank) {
      var k := r[i].key;
      FilterKeepsSorted(s, rank, x => key(x) == k);
    }
  }

  /** Every element of a group carries the group's key and comes from the input. */
  lemma GroupItemsHaveKey<T(!new)>(s: seq<T>, key: T -> int)
    ensures forall i, x :: 0 <= i < |GroupBy(s, key)| && x in GroupBy(s, key)[i].items ==>
              key(x) == GroupBy(s, key)[i].key && x in s
  {
    var r := GroupBy(s, key);
    forall i, x | 0 <= i < |r| && x in r[i].items ensures key(x) == r[i].key && x in s {
      assert x in WithKey(s, key, r[i].key);
    }
  }

  /**
    Sorting by a rank that tells keys apart and nothing else keeps each key's
    elements in input order.
  */
  lemma SortKeepsKeyOrder<T(!new)>(s: seq<T>, key: T -> int, rank: T -> Rank, k: int)
    requires forall x, y :: rank(x) == rank(y) <==> key(x) == key(y)
    ensures WithKey(SortBy(s, rank), key, k) == WithKey(s, key, k)
  {
    var sorted := SortBy(s, rank);
    if x0 :| x0 in s && key(x0) == k {
      SortIsStable(s, rank, rank(x0));
      FilterExtensional(sorted, x => key(x) == k, RankIs(rank, rank(x0)));
      FilterExtensional(s, x => key(x) == k, RankIs(rank, rank(x0)));
    } else {
      forall x | x in sorted ensures key(x) != k {
        assert x in multiset(sorted);
      }
      FilterNone(sorted, x => key(x) == k);
      FilterNone(s, x => key(x) == k);
    }
  }
}
