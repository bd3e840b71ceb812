/**
 * Python's `sort(key=…, reverse=True)` / `sorted(…, key=…, reverse=True)` on a
 * real-valued key, and the `[:n]` cut after it. The sort is stable: it is
 * written as insertion of each element, in input order, after every element
 * whose key is at least its own.
 */
module Ranking {
  import opened Seqs

  /** `s` ordered by descending key. */
  predicate SortedDesc<T>(s: seq<T>, key: T -> real) {
    forall i, j :: 0 <= i < j < |s| ==> key(s[i]) >= key(s[j])
  }

  /** `x` placed after the elements of `s` whose key is at least its own. */
  function Insert<T>(x: T, s: seq<T>, key: T -> real): (r: seq<T>)
    ensures |r| == |s| + 1
    decreases |s|
  {
    if |s| == 0 then [x]
    else if key(s[0]) >= key(x) then [s[0]] + Insert(x, s[1..], key)
    else [x] + s
  }

  /** The stable descending sort of `s`. */
  function SortDesc<T>(s: seq<T>, key: T -> real): (r: seq<T>)
    ensures |r| == |s|
    decreases |s|
  {
    if |s| == 0 then [] else Insert(s[|s| - 1], SortDesc(s[..|s| - 1], key), key)
  }

  lemma {:induction false} InsertPerm<T>(x: T, s: seq<T>, key: T -> real)
    ensures multiset(Insert(x, s, key)) == multiset(s) + multiset{x}
    decreases |s|
  {
    if |s| > 0 && key(s[0]) >= key(x) {
      InsertPerm(x, s[1..], key);
      assert s == [s[0]] + s[1..];
    }
  }

  /** A bound on every key of `s` and on the key of `x` bounds every key after the insertion. */
  lemma {:induction false} InsertBound<T>(x: T, s: seq<T>, key: T -> real, b: real)
    requires key(x) <= b && forall i :: 0 <= i < |s| ==> key(s[i]) <= b
    ensures forall i :: 0 <= i < |s| + 1 ==> key(Insert(x, s, key)[i]) <= b
    decreases |s|
  {
    if |s| > 0 && key(s[0]) >= key(x) {
      InsertBound(x, s[1..], key, b);
    }
  }

  lemma {:induction false} InsertSorted<T>(x: T, s: seq<T>, key: T -> real)
    requires SortedDesc(s, key)
    ensures SortedDesc(Insert(x, s, key), key)
    decreases |s|
  {
    if |s| > 0 && key(s[0]) >= key(x) {
      var tail := Insert(x, s[1..], key);
      InsertSorted(x, s[1..], key);
      InsertBound(x, s[1..], key, key(s[0]));
      assert Insert(x, s, key) == [s[0]] + tail;
    }
  }

  lemma InsertSpec<T>(x: T, s: seq<T>, key: T -> real)
    requires SortedDesc(s, key)
    ensures SortedDesc(Insert(x, s, key), key)
    ensures multiset(Insert(x, s, key)) == multiset(s) + multiset{x}
  {
    InsertPerm(x, s, key);
    InsertSorted(x, s, key);
  }

  /** The sort orders by descending key and is a permutation of its input. */
  lemma {:induction false} SortDescSpec<T>(s: seq<T>, key: T -> real)
    ensures SortedDesc(SortDesc(s, key), key)
    ensures multiset(SortDesc(s, key)) == multiset(s)
    decreases |s|
  {
    if |s| > 0 {
      var n := |s| - 1;
      SortDescSpec(s[..n], key);
      InsertSpec(s[n], SortDesc(s[..n], key), key);
      assert s == s[..n] + [s[n]];
    }
  }

  /** An element whose key is at most every key of `s` goes last. */
  lemma {:induction false} InsertLast<T>(x: T, s: seq<T>, key: T -> real)
    requires forall i :: 0 <= i < |s| ==> key(s[i]) >= key(x)
    ensures Insert(x, s, key) == s + [x]
    decreases |s|
  {
    if |s| > 0 {
      InsertLast(x, s[1..], key);
      assert s == [s[0]] + s[1..];
    }
  }

  /** The sort is stable in this sense: an input already in descending order comes out unchanged. */
  lemma {:induction false} SortedUnchanged<T>(s: seq<T>, key: T -> real)
    requires SortedDesc(s, key)
    ensures SortDesc(s, key) == s
    decreases |s|
  {
    if |s| > 0 {
      var n := |s| - 1;
      assert SortedDesc(s[..n], key);
      SortedUnchanged(s[..n], key);
      InsertLast(s[n], s[..n], key);
      assert s == s[..n] + [s[n]];
    }
  }

  /** The in-place sort: each element of the input inserted in turn. */
  method SortByKey<T>(s: seq<T>, key: T -> real) returns (r: seq<T>)
    ensures r == SortDesc(s, key)
  {
    r := [];
    var i := 0;
    while i < |s|
      invariant 0 <= i <= |s|
      invariant r == SortDesc(s[..i], key)
    {
      assert s[..i + 1][..i] == s[..i];
      r := Insert(s[i], r, key);
      i := i + 1;
    }
    assert s[..i] == s;
  }

  /**
   * The first `n` of the descending sort: at most `n` elements, ordered by
   * descending key, each from the input, and none left out whose key exceeds
   * that of an element kept.
   */
  lemma TopSpec<T>(s: seq<T>, key: T -> real, n: nat)
    ensures var top := Front(SortDesc(s, key), n);
      && |top| == (if |s| <= n then |s| else n)
      && SortedDesc(top, key)
      && multiset(top) <= multiset(s)
      && (forall i, j :: 0 <= i < |top| <= j < |s| ==> key(top[i]) >= key(SortDesc(s, key)[j]))
  {
    var sorted := SortDesc(s, key);
    var top := Front(sorted, n);
    SortDescSpec(s, key);
    assert sorted == top + sorted[|top|..];
    assert multiset(sorted) == multiset(top) + multiset(sorted[|top|..]);
  }
}
