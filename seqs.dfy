/** Small facts about sequences used throughout. */
module Seqs {
  /** A nonempty sequence is its prefix followed by its last element. */
  lemma LastSplit<T>(s: seq<T>)
    requires s != []
    ensures s[..|s| - 1] + [s[|s| - 1]] == s
  {
  }

  /** A nonempty sequence holds its first element. */
  lemma FirstIn<T>(s: seq<T>)
    ensures s == [] || s[0] in s
  {
  }

  /** The number of `true` entries. */
  function CountTrue(s: seq<bool>): (n: nat)
    ensures n <= |s|
  {
    if s == [] then 0 else CountTrue(s[..|s| - 1]) + (if s[|s| - 1] then 1 else 0)
  }

  /** Clearing one entry lowers the count by one exactly when the entry was set. */
  lemma {:induction false} CountTrueClear(s: seq<bool>, i: nat)
    requires i < |s|
    ensures CountTrue(s[i := false]) == CountTrue(s) - (if s[i] then 1 else 0)
  {
    var n := |s|;
    var t := s[i := false];
    assert t[..n - 1] == if i < n - 1 then s[..n - 1][i := false] else s[..n - 1];
    if i < n - 1 {
      CountTrueClear(s[..n - 1], i);
    }
  }

  /** Ascending by `key`. */
  predicate SortedByKey<T>(s: seq<T>, key: T -> int) {
    forall i, j :: 0 <= i < j < |s| ==> key(s[i]) <= key(s[j])
  }

  /** `x` placed after every element whose key is not greater. */
  function InsertByKey<T>(sorted: seq<T>, x: T, key: T -> int): (r: seq<T>)
    requires SortedByKey(sorted, key)
    ensures SortedByKey(r, key) && multiset(r) == multiset(sorted) + multiset{x}
    ensures r != [] && (r[0] == x || (sorted != [] && r[0] == sorted[0]))
  {
    if sorted == [] then [x]
    else if key(x) < key(sorted[0]) then
      InsertFront(sorted, x, key);
      [x] + sorted
    else
      var rest := InsertByKey(sorted[1..], x, key);
      InsertBehind(sorted, x, key, rest);
      [sorted[0]] + rest
  }

  lemma InsertFront<T>(sorted: seq<T>, x: T, key: T -> int)
    requires SortedByKey(sorted, key) && sorted != [] && key(x) < key(sorted[0])
    ensures SortedByKey([x] + sorted, key)
  {
    var r := [x] + sorted;
    forall i, j | 0 <= i < j < |r|
      ensures key(r[i]) <= key(r[j])
    {
      assert r[j] == sorted[j - 1];
      if i > 0 {
        assert r[i] == sorted[i - 1];
      }
    }
  }

  lemma InsertBehind<T>(sorted: seq<T>, x: T, key: T -> int, rest: seq<T>)
    requires SortedByKey(sorted, key) && sorted != [] && key(x) >= key(sorted[0])
    requires SortedByKey(rest, key) && multiset(rest) == multiset(sorted[1..]) + multiset{x}
    requires rest != [] && (rest[0] == x || (sorted[1..] != [] && rest[0] == sorted[1..][0]))
    ensures SortedByKey([sorted[0]] + rest, key)
    ensures multiset([sorted[0]] + rest) == multiset(sorted) + multiset{x}
  {
    var r := [sorted[0]] + rest;
    assert key(sorted[0]) <= key(rest[0]);
    forall i, j | 0 <= i < j < |r|
      ensures key(r[i]) <= key(r[j])
    {
      assert r[j] == rest[j - 1];
      if i > 0 {
        assert r[i] == rest[i - 1];
      }
    }
    assert sorted == [sorted[0]] + sorted[1..];
  }

  /** A stable sort by `key` (`sort_by_key`): a permutation, ascending by key. */
  function SortByKey<T>(s: seq<T>, key: T -> int): (sorted: seq<T>)
    ensures SortedByKey(sorted, key) && multiset(sorted) == multiset(s)
  {
    if s == [] then []
    else
      assert s == s[..|s| - 1] + [s[|s| - 1]];
      InsertByKey(SortByKey(s[..|s| - 1], key), s[|s| - 1], key)
  }

  /** `f` applied to every element. */
  function Map<T, U>(f: T -> U, s: seq<T>): (r: seq<U>)
    ensures |r| == |s| && forall i :: 0 <= i < |s| ==> r[i] == f(s[i])
  {
    if s == [] then [] else [f(s[0])] + Map(f, s[1..])
  }

  /** A map that keeps the keys keeps a sequence sorted. */
  lemma MapSorted<T, U>(s: seq<T>, f: T -> U, key: T -> int, key': U -> int)
    requires SortedByKey(s, key)
    requires forall y :: key'(f(y)) == key(y)
    ensures SortedByKey(Map(f, s), key')
  {
    var m := Map(f, s);
    forall i, j | 0 <= i < j < |m|
      ensures key'(m[i]) <= key'(m[j])
    {
      assert key'(m[i]) == key(s[i]) && key'(m[j]) == key(s[j]);
    }
  }

  /** Inserting commutes with a map that keeps the keys. */
  lemma {:induction false} InsertMap<T, U>(sorted: seq<T>, x: T, f: T -> U, key: T -> int, key': U -> int)
    requires SortedByKey(sorted, key)
    requires forall y :: key'(f(y)) == key(y)
    ensures SortedByKey(Map(f, sorted), key')
    ensures Map(f, InsertByKey(sorted, x, key)) == InsertByKey(Map(f, sorted), f(x), key')
  {
    MapSorted(sorted, f, key, key');
    if sorted != [] {
      var m := Map(f, sorted);
      assert m[1..] == Map(f, sorted[1..]);
      if key(x) >= key(sorted[0]) {
        InsertMap(sorted[1..], x, f, key, key');
        var rest := InsertByKey(sorted[1..], x, key);
        assert ([sorted[0]] + rest)[1..] == rest;
      } else {
        assert ([x] + sorted)[1..] == sorted;
      }
    }
  }

  /** Sorting commutes with a map that keeps the keys. */
  lemma {:induction false} SortMap<T, U>(s: seq<T>, f: T -> U, key: T -> int, key': U -> int)
    requires forall y :: key'(f(y)) == key(y)
    ensures Map(f, SortByKey(s, key)) == SortByKey(Map(f, s), key')
  {
    if s != [] {
      var n := |s|;
      SortMap(s[..n - 1], f, key, key');
      assert Map(f, s[..n - 1]) == Map(f, s)[..n - 1];
      InsertMap(SortByKey(s[..n - 1], key), s[n - 1], f, key, key');
    }
  }

  /** The sequences `rows(0)`, ..., `rows(n - 1)` one after another. */
  function Concat<T>(rows: nat -> seq<T>, n: nat): seq<T> {
    if n == 0 then [] else Concat(rows, n - 1) + rows(n - 1)
  }

  /** An element of the concatenation is an element of one of its rows. */
  lemma {:induction false} ConcatMember<T>(rows: nat -> seq<T>, n: nat, x: T)
    ensures x in Concat(rows, n) <==> exists k :: 0 <= k < n && x in rows(k)
  {
    if n > 0 {
      ConcatMember(rows, n - 1, x);
      assert x in Concat(rows, n) <==> x in Concat(rows, n - 1) || x in rows(n - 1);
    }
  }

  /** No element appears twice. */
  ghost predicate Distinct<T>(s: seq<T>) {
    forall i, j :: 0 <= i < |s| && 0 <= j < |s| && i != j ==> s[i] != s[j]
  }

  /** Without repetitions, every element occurs at most once. */
  lemma {:induction false} DistinctAtMostOnce<T>(s: seq<T>)
    requires Distinct(s)
    ensures forall x :: multiset(s)[x] <= 1
  {
    if s != [] {
      var n := |s|;
      var init := s[..n - 1];
      assert Distinct(init) by {
        assert forall i :: 0 <= i < n - 1 ==> init[i] == s[i];
      }
      DistinctAtMostOnce(init);
      assert s == init + [s[n - 1]];
      assert s[n - 1] !in init by {
        assert forall i :: 0 <= i < n - 1 ==> init[i] == s[i];
      }
    }
  }

  /** A repetition is an element that occurs twice. */
  lemma RepeatedTwice<T>(s: seq<T>, i: nat, j: nat)
    requires i < j < |s| && s[i] == s[j]
    ensures multiset(s)[s[i]] >= 2
  {
    assert s == s[..j] + [s[j]] + s[j + 1..];
    assert s[i] in s[..j];
  }

  /** A sequence without repetitions is one whose elements occur at most once each. */
  lemma DistinctCount<T>(s: seq<T>)
    ensures Distinct(s) <==> forall x :: multiset(s)[x] <= 1
  {
    if Distinct(s) {
      DistinctAtMostOnce(s);
    } else {
      var i, j :| 0 <= i < |s| && 0 <= j < |s| && i != j && s[i] == s[j];
      if i < j {
        RepeatedTwice(s, i, j);
      } else {
        RepeatedTwice(s, j, i);
      }
    }
  }

  /** A permutation of a sequence without repetitions has none. */
  lemma DistinctPermutation<T>(a: seq<T>, b: seq<T>)
    requires multiset(a) == multiset(b) && Distinct(a)
    ensures Distinct(b)
  {
    DistinctCount(a);
    DistinctCount(b);
  }
}
