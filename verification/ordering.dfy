/** Sorting by an integer key, used for the `orderBy: { order: "asc" }` clauses of
    the project queries. */
module Ordering {

  predicate SortedBy<T>(s: seq<T>, key: T -> int) {
    forall i, j :: 0 <= i < j < |s| ==> key(s[i]) <= key(s[j])
  }

  /** Inserts `x` into a sorted sequence, after every element whose key is at most `key(x)`. */
  function InsertBy<T(==)>(x: T, s: seq<T>, key: T -> int): (r: seq<T>)
    requires SortedBy(s, key)
    ensures SortedBy(r, key)
    ensures multiset(r) == multiset(s) + multiset{x}
    ensures |r| == |s| + 1
    ensures forall i :: 0 <= i < |r| ==> r[i] == x || r[i] in s
  {
    if |s| == 0 then [x]
    else if key(x) < key(s[0]) then [x] + s
    else
      var rest := InsertBy(x, s[1..], key);
      assert s == [s[0]] + s[1..];
      HeadBelowInserted(s, x, rest, key);
      ConsSorted(s[0], rest, key);
      [s[0]] + rest
  }

  /** After the recursive insertion, the head of `s` is still at or below
      every key of the result, since each element is `x` or came from `s`. */
  lemma HeadBelowInserted<T>(s: seq<T>, x: T, rest: seq<T>, key: T -> int)
    requires |s| > 0 && SortedBy(s, key) && key(s[0]) <= key(x)
    requires forall i :: 0 <= i < |rest| ==> rest[i] == x || rest[i] in s[1..]
    ensures forall i :: 0 <= i < |rest| ==> key(s[0]) <= key(rest[i])
  {
    forall i | 0 <= i < |rest|
      ensures key(s[0]) <= key(rest[i])
    {
      if rest[i] != x {
        var j :| 0 <= j < |s[1..]| && s[1..][j] == rest[i];
        assert s[j + 1] == rest[i];
      }
    }
  }

  lemma ConsSorted<T>(h: T, rest: seq<T>, key: T -> int)
    requires SortedBy(rest, key)
    requires forall i :: 0 <= i < |rest| ==> key(h) <= key(rest[i])
    ensures SortedBy([h] + rest, key)
  {
    var r := [h] + rest;
    forall i, j | 0 <= i < j < |r|
      ensures key(r[i]) <= key(r[j])
    {
      assert r[j] == rest[j - 1];
      if i > 0 {
        assert r[i] == rest[i - 1];
      }
    }
  }

  /** Insertion sort: an ascending permutation of `s`. */
  function SortBy<T(==)>(s: seq<T>, key: T -> int): (r: seq<T>)
    ensures SortedBy(r, key)
    ensures multiset(r) == multiset(s)
    ensures |r| == |s|
  {
    if |s| == 0 then []
    else
      assert s == [s[0]] + s[1..];
      InsertBy(s[0], SortBy(s[1..], key), key)
  }
}
