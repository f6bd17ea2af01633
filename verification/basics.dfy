/** Small collection helpers shared by the rest of the model: an optional
    value, order-preserving filtering, pairwise relations over sequences and
    the ascending enumeration of a finite set of identifiers. */
module Basics {

  /** An absent or present value; stands for Go's nil-able pointers. */
  datatype Option<T> = None | Some(value: T)

  /** The elements of `s` that satisfy `keep`, in their original order. */
  function Filter<T(!new)>(s: seq<T>, keep: T -> bool): (r: seq<T>)
    ensures |r| <= |s|
    ensures forall x :: x in r <==> x in s && keep(x)
    decreases |s|
  {
    if |s| == 0 then []
    else (if keep(s[0]) then [s[0]] else []) + Filter(s[1..], keep)
  }

  /** Filtering distributes over concatenation. */
  lemma {:induction false} FilterConcat<T(!new)>(a: seq<T>, b: seq<T>, keep: T -> bool)
    ensures Filter(a + b, keep) == Filter(a, keep) + Filter(b, keep)
    decreases |a|
  {
    if |a| > 0 {
      assert (a + b)[1..] == a[1..] + b;
      FilterConcat(a[1..], b, keep);
    } else {
      assert a + b == b;
    }
  }

  /** Every element kept by `keep` is kept again, so filtering twice changes nothing,
      and a filter that keeps every element is the identity. */
  lemma {:induction false} FilterAll<T(!new)>(s: seq<T>, keep: T -> bool)
    requires forall x | x in s :: keep(x)
    ensures Filter(s, keep) == s
    decreases |s|
  {
    if |s| > 0 {
      assert s[0] in s;
      assert forall x | x in s[1..] :: x in s;
      FilterAll(s[1..], keep);
      assert [s[0]] + s[1..] == s;
    }
  }

  /** A filter that keeps nothing of `s` yields the empty sequence. */
  lemma FilterNone<T(!new)>(s: seq<T>, keep: T -> bool)
    requires forall x | x in s :: !keep(x)
    ensures Filter(s, keep) == []
  {
    if Filter(s, keep) != [] {
      assert Filter(s, keep)[0] in Filter(s, keep);
    }
  }

  /** `rel` holds of every pair of elements taken in sequence order. */
  ghost predicate Pairwise<T>(s: seq<T>, rel: (T, T) -> bool)
  {
    forall i, j | 0 <= i < j < |s| :: rel(s[i], s[j])
  }

  /** A concatenation is pairwise related exactly when both halves are and
      every element of the first half is related to every element of the second. */
  lemma PairwiseConcat<T>(a: seq<T>, b: seq<T>, rel: (T, T) -> bool)
    ensures Pairwise(a + b, rel) <==>
      (Pairwise(a, rel) && Pairwise(b, rel) && forall x, y | x in a && y in b :: rel(x, y))
  {
    if Pairwise(a + b, rel) {
      forall x, y | x in a && y in b ensures rel(x, y) {
        var i :| 0 <= i < |a| && a[i] == x;
        var j :| 0 <= j < |b| && b[j] == y;
        assert (a + b)[i] == x && (a + b)[|a| + j] == y;
      }
      forall i, j | 0 <= i < j < |a| ensures rel(a[i], a[j]) {
        assert (a + b)[i] == a[i] && (a + b)[j] == a[j];
      }
      forall i, j | 0 <= i < j < |b| ensures rel(b[i], b[j]) {
        assert (a + b)[|a| + i] == b[i] && (a + b)[|a| + j] == b[j];
      }
    }
    if Pairwise(a, rel) && Pairwise(b, rel) && forall x, y | x in a && y in b :: rel(x, y) {
      forall i, j | 0 <= i < j < |a + b| ensures rel((a + b)[i], (a + b)[j]) {
        if j < |a| {
          assert (a + b)[i] == a[i] && (a + b)[j] == a[j];
        } else if i < |a| {
          assert (a + b)[i] in a && (a + b)[j] in b;
        } else {
          assert (a + b)[i] == b[i - |a|] && (a + b)[j] == b[j - |a|];
        }
      }
    }
  }

  /** Filtering keeps every pairwise relation: it only drops elements and never reorders. */
  lemma {:induction false} PairwiseFilter<T(!new)>(s: seq<T>, keep: T -> bool, rel: (T, T) -> bool)
    requires Pairwise(s, rel)
    ensures Pairwise(Filter(s, keep), rel)
    decreases |s|
  {
    if |s| > 0 {
      var head: seq<T> := if keep(s[0]) then [s[0]] else [];
      var tail := s[1..];
      assert Pairwise(tail, rel) by {
        forall i, j | 0 <= i < j < |tail| ensures rel(tail[i], tail[j]) {
          assert tail[i] == s[i + 1] && tail[j] == s[j + 1];
        }
      }
      PairwiseFilter(tail, keep, rel);
      forall x, y | x in head && y in Filter(tail, keep) ensures rel(x, y) {
        var j :| 0 <= j < |tail| && tail[j] == y;
        assert x == s[0] && y == s[j + 1];
      }
      PairwiseConcat(head, Filter(tail, keep), rel);
    }
  }

  /** A least element of a non-empty finite set of naturals, found by
      removing elements one at a time. */
  ghost function Least(s: set<nat>): (m: nat)
    requires s != {}
    ensures m in s
    ensures forall y | y in s :: m <= y
    decreases |s|
  {
    var x :| x in s;
    var rest := s - {x};
    if rest == {} then
      assert forall y | y in s :: y == x || y in rest;
      x
    else
      var m := Least(rest);
      assert forall y | y in s :: y == x || y in rest;
      if x < m then x else m
  }

  /** The least element of a non-empty finite set of naturals: the one
      `Least` constructs, picked out by its defining property. */
  function MinOf(s: set<nat>): (m: nat)
    requires s != {}
    ensures m in s
    ensures forall y | y in s :: m <= y
  {
    assert Least(s) in s && forall y | y in s :: Least(s) <= y;
    var m :| m in s && forall y | y in s :: m <= y;
    m
  }

  /** Strictly increasing sequences of naturals (hence without repetition). */
  ghost predicate Ascending(s: seq<nat>)
  {
    forall i, j | 0 <= i < j < |s| :: s[i] < s[j]
  }

  /** A least element put in front of an ascending listing of the rest gives
      an ascending listing of the whole. */
  lemma ConsAscending(m: nat, rest: seq<nat>, smaller: set<nat>)
    requires forall x :: x in rest <==> x in smaller
    requires Ascending(rest)
    requires forall x | x in smaller :: m < x
    ensures Ascending([m] + rest)
    ensures forall x :: x in [m] + rest <==> x == m || x in smaller
  {
    var r := [m] + rest;
    forall i, j | 0 <= i < j < |r| ensures r[i] < r[j] {
      assert r[j] == rest[j - 1] && rest[j - 1] in rest;
      if i > 0 {
        assert r[i] == rest[i - 1];
      }
    }
  }

  /** The members of `s` listed once each, in ascending order. */
  function SortedIds(s: set<nat>): (r: seq<nat>)
    ensures forall x :: x in r <==> x in s
    ensures |r| == |s|
    ensures Ascending(r)
    decreases |s|
  {
    if s == {} then []
    else
      var m := MinOf(s);
      var smaller := s - {m};
      assert |smaller| == |s| - 1;
      var rest := SortedIds(smaller);
      ConsAscending(m, rest, smaller);
      [m] + rest
  }
}
