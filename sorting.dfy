/** Ordering records by an integer key, as a storage query's `sort` does: an insertion sort
    that puts each record before the first one whose key is at least as large. Records are
    inserted last to first, so records with equal keys keep their input order. */
module Sorting {

  predicate SortedBy<T>(s: seq<T>, key: T -> int) {
    forall i, j :: 0 <= i < j < |s| ==> key(s[i]) <= key(s[j])
  }

  function Insert<T>(x: T, s: seq<T>, key: T -> int): seq<T> {
    if s == [] || key(x) <= key(s[0]) then [x] + s else [s[0]] + Insert(x, s[1..], key)
  }

  /** Insert places `x` at one position and keeps the rest in order. */
  lemma {:induction false} InsertSplits<T>(x: T, s: seq<T>, key: T -> int) returns (k: nat)
    ensures k <= |s| && Insert(x, s, key) == s[..k] + [x] + s[k..]
  {
    if s == [] || key(x) <= key(s[0]) {
      k := 0;
    } else {
      var k' := InsertSplits(x, s[1..], key);
      k := k' + 1;
      assert s[..k] == [s[0]] + s[1..][..k'];
      assert s[k..] == s[1..][k'..];
    }
  }

  lemma InsertPermutes<T>(x: T, s: seq<T>, key: T -> int)
    ensures multiset(Insert(x, s, key)) == multiset{x} + multiset(s)
    ensures |Insert(x, s, key)| == |s| + 1
  {
    var k := InsertSplits(x, s, key);
    assert s == s[..k] + s[k..];
  }

  /** Every record of Insert(x, s) is `x` or a record of `s`. */
  lemma InsertMembers<T>(x: T, s: seq<T>, key: T -> int)
    ensures forall y :: y in Insert(x, s, key) ==> y == x || y in s
  {
    var k := InsertSplits(x, s, key);
    assert s == s[..k] + s[k..];
  }

  lemma {:induction false} InsertSorted<T>(x: T, s: seq<T>, key: T -> int)
    requires SortedBy(s, key)
    ensures SortedBy(Insert(x, s, key), key)
    decreases |s|
  {
    if s != [] && key(x) > key(s[0]) {
      InsertSorted(x, s[1..], key);
      var r := Insert(x, s[1..], key);
      InsertMembers(x, s[1..], key);
      forall i | 0 <= i < |r|
        ensures key(s[0]) <= key(r[i])
      {
        assert r[i] in r;
        if r[i] != x {
          var j :| 0 <= j < |s[1..]| && s[1..][j] == r[i];
          assert s[j + 1] == r[i];
        }
      }
      assert Insert(x, s, key) == [s[0]] + r;
    }
  }

  /** Records in ascending order of `key`. */
  function SortBy<T>(s: seq<T>, key: T -> int): seq<T> {
    if s == [] then [] else Insert(s[0], SortBy(s[1..], key), key)
  }

  /** SortBy returns a permutation of its input, in ascending key order. */
  lemma {:induction false} SortByCorrect<T>(s: seq<T>, key: T -> int)
    ensures SortedBy(SortBy(s, key), key)
    ensures multiset(SortBy(s, key)) == multiset(s)
    ensures |SortBy(s, key)| == |s|
  {
    if s != [] {
      SortByCorrect(s[1..], key);
      InsertSorted(s[0], SortBy(s[1..], key), key);
      InsertPermutes(s[0], SortBy(s[1..], key), key);
      assert s == [s[0]] + s[1..];
    }
  }
}
