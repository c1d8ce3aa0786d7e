/**
 * Insertion sort under a caller-given total preorder: how the ledger's
 * `ORDER BY` clauses are modelled.
 */
module Sorting {
  /** `le` relates every pair one way or the other. */
  ghost predicate Total<T(!new)>(le: (T, T) -> bool)
  {
    forall a: T, b: T :: le(a, b) || le(b, a)
  }

  /** `le` chains. */
  ghost predicate Transitive<T(!new)>(le: (T, T) -> bool)
  {
    forall a: T, b: T, c: T :: le(a, b) && le(b, c) ==> le(a, c)
  }

  predicate SortedBy<T>(xs: seq<T>, le: (T, T) -> bool)
  {
    forall i, j | 0 <= i < j < |xs| :: le(xs[i], xs[j])
  }

  /** `x` placed before the first element it precedes. */
  function Insert<T>(x: T, xs: seq<T>, le: (T, T) -> bool): (r: seq<T>)
    ensures multiset(r) == multiset(xs) + multiset{x}
    ensures |r| == |xs| + 1
  {
    if xs == [] then [x]
    else if le(x, xs[0]) then [x] + xs
    else
      assert xs == [xs[0]] + xs[1..];
      [xs[0]] + Insert(x, xs[1..], le)
  }

  lemma {:induction false} InsertSorted<T(!new)>(x: T, xs: seq<T>, le: (T, T) -> bool)
    requires Total(le) && Transitive(le)
    requires SortedBy(xs, le)
    ensures SortedBy(Insert(x, xs, le), le)
  {
    if xs == [] {
    } else if le(x, xs[0]) {
      var r := [x] + xs;
      forall i, j | 0 <= i < j < |r|
        ensures le(r[i], r[j])
      {
        if i == 0 && j > 1 {
          assert le(xs[0], xs[j - 1]);
        }
      }
    } else {
      var rest := Insert(x, xs[1..], le);
      InsertSorted(x, xs[1..], le);
      assert le(xs[0], x);
      forall z | z in rest
        ensures le(xs[0], z)
      {
        assert z in multiset(rest);
        if z != x {
          assert z in multiset(xs[1..]);
          var k :| 0 <= k < |xs[1..]| && xs[1..][k] == z;
          assert xs[k + 1] == z;
        }
      }
      var r := [xs[0]] + rest;
      forall i, j | 0 <= i < j < |r|
        ensures le(r[i], r[j])
      {
        if i == 0 {
          assert r[j] == rest[j - 1];
          assert r[j] in rest;
        } else {
          assert r[i] == rest[i - 1] && r[j] == rest[j - 1];
        }
      }
      assert Insert(x, xs, le) == r;
    }
  }

  /** The elements of `xs` ordered by `le`. */
  function Sort<T>(xs: seq<T>, le: (T, T) -> bool): (r: seq<T>)
    ensures multiset(r) == multiset(xs)
    ensures |r| == |xs|
  {
    if xs == [] then []
    else
      assert xs == [xs[0]] + xs[1..];
      Insert(xs[0], Sort(xs[1..], le), le)
  }

  /** Under a total preorder, `Sort` yields an ordered permutation. */
  lemma {:induction false} SortSorted<T(!new)>(xs: seq<T>, le: (T, T) -> bool)
    requires Total(le) && Transitive(le)
    ensures SortedBy(Sort(xs, le), le)
  {
    if xs != [] {
      SortSorted(xs[1..], le);
      InsertSorted(xs[0], Sort(xs[1..], le), le);
    }
  }

  /** Removing position `k` removes one occurrence of `b[k]` and shifts what follows. */
  lemma RemoveAt<T>(b: seq<T>, k: int, b': seq<T>)
    requires 0 <= k < |b| && b' == b[..k] + b[k + 1..]
    ensures multiset(b') == multiset(b) - multiset{b[k]}
    ensures forall p | 0 <= p < |b'| :: b'[p] == b[if p < k then p else p + 1]
  {
    assert b == b[..k] + [b[k]] + b[k + 1..];
    assert multiset(b) == multiset(b[..k]) + multiset{b[k]} + multiset(b[k + 1..]);
  }

  /** A permutation keeps every element. */
  lemma KeptByPermutation<T>(a: seq<T>, b: seq<T>, k: int)
    requires multiset(a) == multiset(b) && 0 <= k < |b|
    ensures b[k] in a
  {
    assert b[k] in multiset(b);
  }

  /** Where an element of `a` sits in a permutation `b` of it. */
  lemma PositionInPermutation<T>(a: seq<T>, b: seq<T>, x: T) returns (k: int)
    requires multiset(a) == multiset(b) && x in a
    ensures 0 <= k < |b| && b[k] == x
  {
    assert x in multiset(b);
    k :| 0 <= k < |b| && b[k] == x;
  }

  /** Where the last element of `a` sits in a permutation `b` of it, and what is left of both. */
  lemma MatchLast<T>(a: seq<T>, b: seq<T>) returns (k: int)
    requires a != [] && multiset(a) == multiset(b)
    ensures 0 <= k < |b| && b[k] == a[|a| - 1]
    ensures multiset(a[..|a| - 1]) == multiset(b[..k] + b[k + 1..])
  {
    var x := a[|a| - 1];
    assert a == a[..|a| - 1] + [x];
    assert multiset(a[..|a| - 1]) == multiset(a) - multiset{x};
    assert x in multiset(b);
    k :| 0 <= k < |b| && b[k] == x;
    RemoveAt(b, k, b[..k] + b[k + 1..]);
  }

  /** Removing one element of a sequence with distinct keys leaves distinct keys, none that of the removed one. */
  lemma RemoveAtKeys<T, K>(b: seq<T>, k: int, b': seq<T>, key: T -> K)
    requires 0 <= k < |b| && b' == b[..k] + b[k + 1..]
    requires forall p, q | 0 <= p < q < |b| :: key(b[p]) != key(b[q])
    ensures forall p, q | 0 <= p < q < |b'| :: key(b'[p]) != key(b'[q])
    ensures forall y | y in b' :: key(y) != key(b[k])
  {
    RemoveAt(b, k, b');
    forall p, q | 0 <= p < q < |b'|
      ensures key(b'[p]) != key(b'[q])
    {
      var p0 := if p < k then p else p + 1;
      var q0 := if q < k then q else q + 1;
      assert b'[p] == b[p0] && b'[q] == b[q0];
    }
    forall y | y in b'
      ensures key(y) != key(b[k])
    {
      var m :| 0 <= m < |b'| && b'[m] == y;
      var m0 := if m < k then m else m + 1;
      assert b[m0] == y;
    }
  }

  /** A permutation of a sequence whose keys are distinct has distinct keys. */
  lemma {:induction false} DistinctKeysKept<T, K>(a: seq<T>, b: seq<T>, key: T -> K)
    requires multiset(a) == multiset(b)
    requires forall p, q | 0 <= p < q < |b| :: key(b[p]) != key(b[q])
    ensures forall i, j | 0 <= i < j < |a| :: key(a[i]) != key(a[j])
  {
    if a != [] {
      var x := a[|a| - 1];
      var a' := a[..|a| - 1];
      assert a == a' + [x];
      var k := MatchLast(a, b);
      var b' := b[..k] + b[k + 1..];
      RemoveAtKeys(b, k, b', key);
      DistinctKeysKept(a', b', key);
      assert multiset(a') == multiset(b');
      forall i | 0 <= i < |a'|
        ensures key(a'[i]) != key(x)
      {
        assert a'[i] in multiset(a');
      }
    }
  }
}
