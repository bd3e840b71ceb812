/**
 * Sequences used as insertion-ordered collections without repetitions: a
 * JavaScript `Set` and the Python lists the backend appends to only when the
 * element is absent (`if x not in xs: xs.append(x)`); and Python slicing.
 */
module Seqs {

  predicate Distinct<T(==)>(s: seq<T>) {
    forall i, j :: 0 <= i < j < |s| ==> s[i] != s[j]
  }

  /** `set.delete(x)`: the same elements in the same order, less `x`. */
  function Without<T(==)>(s: seq<T>, x: T): (r: seq<T>)
    ensures |r| <= |s|
    decreases |s|
  {
    if |s| == 0 then []
    else if s[0] == x then Without(s[1..], x)
    else [s[0]] + Without(s[1..], x)
  }

  lemma {:induction false} WithoutSpec<T>(s: seq<T>, x: T)
    ensures forall y :: y in Without(s, x) <==> y in s && y != x
    ensures Distinct(s) ==> Distinct(Without(s, x))
    decreases |s|
  {
    if |s| > 0 {
      WithoutSpec(s[1..], x);
      if s[0] != x && Distinct(s) {
        var r := [s[0]] + Without(s[1..], x);
        assert s[0] !in s[1..];
        forall i, j | 0 <= i < j < |r| ensures r[i] != r[j] {
          if i == 0 {
            assert r[j] in Without(s[1..], x);
          } else {
            assert r[i] == Without(s[1..], x)[i - 1] && r[j] == Without(s[1..], x)[j - 1];
          }
        }
      }
    }
  }

  /** `xs` added one by one to `acc`, each only when not already present. */
  function AppendNew<T(==)>(acc: seq<T>, xs: seq<T>): seq<T>
    decreases |xs|
  {
    if |xs| == 0 then acc
    else AppendNew(if xs[0] in acc then acc else acc + [xs[0]], xs[1..])
  }

  /**
   * The collection only grows, holds exactly the old elements and the added ones,
   * and what is appended was absent before and appears once.
   */
  lemma {:induction false} AppendNewSpec<T>(acc: seq<T>, xs: seq<T>)
    ensures acc <= AppendNew(acc, xs)
    ensures forall x :: x in AppendNew(acc, xs) <==> x in acc || x in xs
    ensures forall i :: |acc| <= i < |AppendNew(acc, xs)| ==> AppendNew(acc, xs)[i] !in acc
    ensures Distinct(acc) ==> Distinct(AppendNew(acc, xs))
    decreases |xs|
  {
    if |xs| > 0 {
      var acc' := if xs[0] in acc then acc else acc + [xs[0]];
      AppendNewSpec(acc', xs[1..]);
      assert xs == [xs[0]] + xs[1..];
      var r := AppendNew(acc, xs);
      forall i | |acc| <= i < |r| ensures r[i] !in acc {
        if i >= |acc'| {
          assert r[i] !in acc';
        } else {
          assert r[i] == xs[0] && xs[0] !in acc;
        }
      }
    }
  }

  /** Adding an element that is already present changes nothing. */
  lemma {:induction false} AppendNewPresent<T>(acc: seq<T>, xs: seq<T>)
    requires forall i :: 0 <= i < |xs| ==> xs[i] in acc
    ensures AppendNew(acc, xs) == acc
    decreases |xs|
  {
    if |xs| > 0 {
      AppendNewPresent(acc, xs[1..]);
    }
  }

  /** The loop `for x in xs: if x not in acc: acc.append(x)`. */
  method AppendAbsent<T(==)>(acc: seq<T>, xs: seq<T>) returns (r: seq<T>)
    ensures r == AppendNew(acc, xs)
  {
    r := acc;
    var i := 0;
    while i < |xs|
      invariant 0 <= i <= |xs|
      invariant AppendNew(r, xs[i..]) == AppendNew(acc, xs)
    {
      assert xs[i..][1..] == xs[i + 1..];
      if xs[i] !in r {
        r := r + [xs[i]];
      }
      i := i + 1;
    }
  }

  /** Python `s[:n]` for `n >= 0`. */
  function Front<T>(s: seq<T>, n: nat): (r: seq<T>)
    ensures |r| == if |s| <= n then |s| else n
    ensures r == s[..|r|]
  {
    if |s| <= n then s else s[..n]
  }

  /** Python `s[a:b]` for `0 <= a`, `0 <= b`: the bounds are clipped to the length and an inverted range is empty. */
  function Slice<T>(s: seq<T>, a: nat, b: nat): (r: seq<T>)
    ensures a <= b <= |s| ==> r == s[a..b]
    ensures |s| <= a || b <= a ==> r == []
  {
    if |s| <= a || b <= a then [] else if b <= |s| then s[a..b] else s[a..]
  }
}
