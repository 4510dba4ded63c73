/** Lists of distinct items, the least recently used first, and their bounded tails. */
module Recency {

  predicate IsDistinct<T(==,!new)>(xs: seq<T>) {
    forall i, j | 0 <= i < j < |xs| :: xs[i] != xs[j]
  }

  function Without<T(==,!new)>(xs: seq<T>, x: T): (ys: seq<T>)
    ensures x !in ys && |ys| <= |xs|
    ensures forall y :: y in ys <==> y in xs && y != x
    ensures x !in xs ==> ys == xs
  {
    if xs == [] then [] else (if xs[0] == x then [] else [xs[0]]) + Without(xs[1..], x)
  }

  /** The distinct items of a history of uses, in the order of their last use. */
  function Recent<T(==,!new)>(uses: seq<T>): (ys: seq<T>)
    ensures forall y :: y in ys <==> y in uses
    decreases |uses|
  {
    if uses == [] then [] else
      var last := uses[|uses| - 1];
      Without(Recent(uses[..|uses| - 1]), last) + [last]
  }

  /** At most `n` items, the last ones. */
  function Tail<T>(xs: seq<T>, n: nat): (ys: seq<T>)
    ensures |ys| <= n && |ys| <= |xs|
  {
    if |xs| <= n then xs else xs[|xs| - n..]
  }

  lemma {:induction false} WithoutDistinct<T(!new)>(xs: seq<T>, x: T)
    requires IsDistinct(xs)
    ensures IsDistinct(Without(xs, x))
    ensures x in xs ==> |Without(xs, x)| == |xs| - 1
  {
    if xs != [] {
      WithoutDistinct(xs[1..], x);
      var rest := Without(xs[1..], x);
      if xs[0] != x {
        assert forall j | 0 <= j < |rest| :: rest[j] in xs[1..];
        assert xs[0] !in xs[1..];
      } else {
        assert x !in xs[1..];
      }
    }
  }

  lemma {:induction false} RecentDistinct<T(!new)>(uses: seq<T>)
    ensures IsDistinct(Recent(uses))
    decreases |uses|
  {
    if uses != [] {
      var front, last := uses[..|uses| - 1], uses[|uses| - 1];
      RecentDistinct(front);
      WithoutDistinct(Recent(front), last);
    }
  }

  lemma {:induction false} WithoutConcat<T(!new)>(xs: seq<T>, ys: seq<T>, x: T)
    ensures Without(xs + ys, x) == Without(xs, x) + Without(ys, x)
  {
    if xs == [] {
      assert xs + ys == ys;
    } else {
      assert (xs + ys)[0] == xs[0] && (xs + ys)[1..] == xs[1..] + ys;
      WithoutConcat(xs[1..], ys, x);
    }
  }

  lemma RecentSnoc<T(!new)>(uses: seq<T>, x: T)
    ensures Recent(uses + [x]) == Without(Recent(uses), x) + [x]
  {
    assert (uses + [x])[..|uses|] == uses;
  }

  lemma TailOfConcat<T>(xs: seq<T>, ys: seq<T>, n: nat)
    requires n <= |ys|
    ensures Tail(xs + ys, n) == ys[|ys| - n..]
  {
  }

  lemma TailDistinct<T(!new)>(xs: seq<T>, n: nat)
    requires IsDistinct(xs)
    ensures IsDistinct(Tail(xs, n))
    ensures forall x | x in Tail(xs, n) :: x !in xs[..|xs| - |Tail(xs, n)|]
  {
    var cut := |xs| - |Tail(xs, n)|;
    forall x | x in Tail(xs, n) ensures x !in xs[..cut] {
      var k :| 0 <= k < |Tail(xs, n)| && Tail(xs, n)[k] == x;
      assert xs[cut + k] == x;
    }
  }

  lemma UseInFullTail<T(!new)>(front: seq<T>, tail: seq<T>, x: T)
    requires IsDistinct(tail) && x in tail && x !in front
    ensures Tail(Without(front + tail, x) + [x], |tail|) == Without(tail, x) + [x]
  {
    WithoutDistinct(tail, x);
    WithoutConcat(front, tail, x);
    var moved := Without(tail, x) + [x];
    assert Without(front + tail, x) + [x] == front + moved;
    TailOfConcat(front, moved, |tail|);
    assert moved[0..] == moved;
  }

  lemma UseOutsideFullTail<T(!new)>(front: seq<T>, tail: seq<T>, x: T)
    requires x !in tail
    ensures Tail(Without(front + tail, x) + [x], |tail|) == (tail + [x])[1..]
  {
    WithoutConcat(front, tail, x);
    var grown := tail + [x];
    assert Without(front + tail, x) + [x] == Without(front, x) + grown;
    TailOfConcat(Without(front, x), grown, |tail|);
  }

  lemma Split<T>(xs: seq<T>, n: nat) returns (front: seq<T>)
    ensures xs == front + Tail(xs, n) && front == xs[..|xs| - |Tail(xs, n)|]
    ensures |xs| <= n ==> front == []
    ensures |xs| >= n ==> |Tail(xs, n)| == n
  {
    front := xs[..|xs| - |Tail(xs, n)|];
  }

  /** Using an item that is in the tail moves it to the end of the tail. */
  lemma UseInTail<T(!new)>(xs: seq<T>, n: nat, x: T)
    requires IsDistinct(xs) && x in Tail(xs, n)
    ensures Tail(Without(xs, x) + [x], n) == Without(Tail(xs, n), x) + [x]
  {
    var front := Split(xs, n);
    TailDistinct(xs, n);
    if |xs| > n {
      UseInFullTail(front, Tail(xs, n), x);
    } else {
      WithoutDistinct(xs, x);
    }
  }

  /** Using any other item appends it, and pushes the first one out of a full tail. */
  lemma UseOutsideTail<T(!new)>(xs: seq<T>, n: nat, x: T)
    requires IsDistinct(xs) && x !in Tail(xs, n)
    ensures Tail(Without(xs, x) + [x], n)
         == if |Tail(xs, n)| + 1 > n then (Tail(xs, n) + [x])[1..] else Tail(xs, n) + [x]
  {
    var front := Split(xs, n);
    if |xs| >= n {
      UseOutsideFullTail(front, Tail(xs, n), x);
    }
  }
}
