/** Sorting by an integer key, as Python's `list.sort(key=...)` does it, and the
    facts about sequences without repetitions that the image store relies on. */
module Sorting {

  /** The elements of `s` in non-decreasing order of `key`. */
  ghost predicate SortedBy<T>(s: seq<T>, key: T -> int) {
    forall i, j :: 0 <= i < j < |s| ==> key(s[i]) <= key(s[j])
  }

  /** Inserts `x` in front of the first element whose key is not smaller, so
      that `x` stays ahead of the elements with an equal key. */
  function InsertByKey<T>(x: T, s: seq<T>, key: T -> int): (r: seq<T>)
    requires SortedBy(s, key)
    ensures SortedBy(r, key)
    ensures multiset(r) == multiset(s) + multiset{x}
    ensures |r| == |s| + 1
    ensures forall k :: 0 <= k < |r| ==> r[k] == x || r[k] in s
  {
    if s == [] || key(x) <= key(s[0]) then
      [x] + s
    else
      var rest := InsertByKey(x, s[1..], key);
      assert s == [s[0]] + s[1..];
      LowerBoundKept(key(s[0]), x, s[1..], rest, key);
      [s[0]] + rest
  }

  /** A key bound shared by `x` and every element of `s` holds for every
      element of a sequence drawn from them. */
  lemma LowerBoundKept<T>(b: int, x: T, s: seq<T>, r: seq<T>, key: T -> int)
    requires b <= key(x)
    requires forall k :: 0 <= k < |s| ==> b <= key(s[k])
    requires forall k :: 0 <= k < |r| ==> r[k] == x || r[k] in s
    ensures forall k :: 0 <= k < |r| ==> b <= key(r[k])
  {
    forall k | 0 <= k < |r| ensures b <= key(r[k]) {
      if r[k] != x {
        var m :| 0 <= m < |s| && s[m] == r[k];
      }
    }
  }

  /** A stable sort of `s` in non-decreasing order of `key` (insertion sort);
      Python's `sort(key=key)` computes the same order. */
  function SortByKey<T>(s: seq<T>, key: T -> int): (r: seq<T>)
    ensures SortedBy(r, key)
    ensures multiset(r) == multiset(s)
    ensures |r| == |s|
  {
    if s == [] then
      []
    else
      assert s == [s[0]] + s[1..];
      InsertByKey(s[0], SortByKey(s[1..], key), key)
  }

  /** The elements of a sequence, as a set. */
  function Elems<T>(s: seq<T>): set<T> {
    set x | x in s
  }

  /** No element occurs twice. */
  ghost predicate Distinct<T>(s: seq<T>) {
    forall i, j :: 0 <= i < j < |s| ==> s[i] != s[j]
  }

  /** A sequence that holds every element of a set exactly once lists each
      element of the set and repeats none. */
  lemma {:induction false} EnumeratesSet<T>(s: seq<T>, S: set<T>)
    requires multiset(s) == multiset(S)
    ensures Distinct(s)
    ensures Elems(s) == S
  {
    forall i, j | 0 <= i < j < |s|
      ensures s[i] != s[j]
    {
      assert s == s[..j] + s[j..];
      assert s[i] in multiset(s[..j]);
      assert s[j] in multiset(s[j..]);
      assert multiset(S)[s[j]] <= 1;
    }
    forall x | x in s ensures x in S {
      assert x in multiset(s);
    }
    forall x | x in S ensures x in s {
      assert x in multiset(S);
    }
  }

  /** A sequence without repetitions has as many distinct elements as entries. */
  lemma {:induction false} DistinctCard<T>(s: seq<T>)
    requires Distinct(s)
    ensures |Elems(s)| == |s|
  {
    if s != [] {
      var last := s[|s| - 1];
      var init := s[..|s| - 1];
      assert Distinct(init);
      DistinctCard(init);
      assert s == init + [last];
      assert Elems(s) == Elems(init) + {last};
      assert last !in Elems(init);
    }
  }

  /** Removing a subset removes exactly its elements from the count. */
  lemma RemovalCard<T>(a: set<T>, r: set<T>)
    requires r <= a
    ensures |a - r| == |a| - |r|
  {
    assert a == (a - r) + r;
  }

  /** Cutting a sequence without repetitions at `k`: the elements past the cut
      are exactly those not before it. */
  lemma SplitDistinct<T>(s: seq<T>, k: nat)
    requires Distinct(s)
    requires k <= |s|
    ensures Elems(s[k..]) == Elems(s) - Elems(s[..k])
    ensures Elems(s[..k]) <= Elems(s)
  {
    assert s == s[..k] + s[k..];
    forall x | x in s[k..] ensures x !in s[..k] {
      var j :| 0 <= j < |s[k..]| && s[k..][j] == x;
      assert s[k + j] == x;
    }
  }
}
