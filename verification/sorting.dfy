/** Sorting records by an integer key, ascending or descending: the
    `.sort({ timestamp: 1 })` / `.sort({ timestamp: -1 })` of the message
    queries. Ties may come out in any order in the store; the model fixes one
    (insertion order), and every property below holds for any tie order. */
module Sorting {

  /** `a` may precede `b` in the requested direction. */
  predicate InOrder(a: int, b: int, descending: bool)
  {
    if descending then a >= b else a <= b
  }

  /** Every earlier element's key comes before every later element's key. */
  predicate SortedBy<T>(xs: seq<T>, key: T -> int, descending: bool)
  {
    forall i, j :: 0 <= i < j < |xs| ==> InOrder(key(xs[i]), key(xs[j]), descending)
  }

  /** Inserts `x` into `xs` in front of the first element it may precede. */
  function Insert<T(==)>(x: T, xs: seq<T>, key: T -> int, descending: bool): (r: seq<T>)
    ensures multiset(r) == multiset(xs) + multiset{x}
    decreases |xs|
  {
    if |xs| == 0 then [x]
    else if InOrder(key(x), key(xs[0]), descending) then [x] + xs
    else
      assert xs == [xs[0]] + xs[1..];
      [xs[0]] + Insert(x, xs[1..], key, descending)
  }

  /** Inserting into a sorted sequence keeps it sorted. */
  lemma {:induction false} InsertSorted<T>(x: T, xs: seq<T>, key: T -> int, descending: bool)
    requires SortedBy(xs, key, descending)
    ensures SortedBy(Insert(x, xs, key, descending), key, descending)
    decreases |xs|
  {
    if |xs| > 0 && !InOrder(key(x), key(xs[0]), descending) {
      var rest := Insert(x, xs[1..], key, descending);
      InsertSorted(x, xs[1..], key, descending);
      forall j | 0 <= j < |rest|
        ensures InOrder(key(xs[0]), key(rest[j]), descending)
      {
        assert rest[j] in multiset(xs[1..]) + multiset{x};
        if rest[j] != x {
          assert rest[j] in xs[1..];
          var k :| 0 <= k < |xs[1..]| && xs[1..][k] == rest[j];
          assert xs[k + 1] == rest[j];
        }
      }
      assert Insert(x, xs, key, descending) == [xs[0]] + rest;
    }
  }

  /** Insertion sort: a sorted permutation of `xs`. */
  function SortBy<T(==)>(xs: seq<T>, key: T -> int, descending: bool): (r: seq<T>)
    ensures SortedBy(r, key, descending)
    ensures multiset(r) == multiset(xs)
    ensures |r| == |xs|
    decreases |xs|
  {
    if |xs| == 0 then []
    else
      assert xs == [xs[0]] + xs[1..];
      var sorted := SortBy(xs[1..], key, descending);
      InsertSorted(xs[0], sorted, key, descending);
      Insert(xs[0], sorted, key, descending)
  }

  /** Reversing a sequence sorted one way sorts it the other way. */
  lemma {:induction false} ReverseSorted<T>(xs: seq<T>, key: T -> int, descending: bool)
    requires SortedBy(xs, key, descending)
    ensures SortedBy(Reverse(xs), key, !descending)
  {
  }

  /** The elements of `xs` back to front. */
  function Reverse<T>(xs: seq<T>): (r: seq<T>)
    ensures |r| == |xs|
    ensures forall i :: 0 <= i < |xs| ==> r[i] == xs[|xs| - 1 - i]
  {
    seq(|xs|, i requires 0 <= i < |xs| => xs[|xs| - 1 - i])
  }

  /** Reversal keeps the elements. */
  lemma {:induction false} ReverseMultiset<T>(xs: seq<T>)
    ensures multiset(Reverse(xs)) == multiset(xs)
    decreases |xs|
  {
    if |xs| > 0 {
      var last := xs[|xs| - 1];
      var init := xs[..|xs| - 1];
      ReverseMultiset(init);
      assert Reverse(xs) == [last] + Reverse(init);
      assert xs == init + [last];
    }
  }

  /** The first `n` of a sequence sorted newest first, reversed: oldest first,
      the rest of the sequence is what was left behind, and nothing left
      behind has a later key than anything kept. */
  lemma {:induction false} NewestWindow<T>(xs: seq<T>, key: T -> int, n: nat)
    requires SortedBy(xs, key, true)
    requires n <= |xs|
    ensures SortedBy(Reverse(xs[..n]), key, false)
    ensures multiset(xs) == multiset(Reverse(xs[..n])) + multiset(xs[n..])
    ensures forall j, k :: n <= j < |xs| && 0 <= k < n ==> key(xs[j]) <= key(Reverse(xs[..n])[k])
  {
    ReverseSorted(xs[..n], key, true);
    ReverseMultiset(xs[..n]);
    assert xs == xs[..n] + xs[n..];
  }
}
