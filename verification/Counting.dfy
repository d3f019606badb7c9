/** Weighted sums over the threads of a protocol.

A protocol state holds one control point per thread, in a sequence. A shared counter
that the threads maintain is the sum of a weight over those control points, and a
step of one thread moves the sum by the difference of two weights. */
module Counting {

  /** The sum of `weight` over the threads. */
  ghost function Total<P>(threads: seq<P>, weight: P -> nat): nat {
    if threads == [] then 0 else weight(threads[0]) + Total(threads[1..], weight)
  }

  /** One thread moving to another control point changes the sum by its two weights. */
  lemma {:induction false} TotalMove<P>(threads: seq<P>, t: nat, p: P, weight: P -> nat)
    requires t < |threads|
    ensures Total(threads[t := p], weight) + weight(threads[t]) == Total(threads, weight) + weight(p)
  {
    if t == 0 {
      assert threads[t := p][1..] == threads[1..];
    } else {
      assert threads[t := p][1..] == threads[1..][t - 1 := p];
      TotalMove(threads[1..], t - 1, p, weight);
    }
  }

  /** Every thread's own weight is part of the sum. */
  lemma {:induction false} TotalCovers<P>(threads: seq<P>, t: nat, weight: P -> nat)
    requires t < |threads|
    ensures weight(threads[t]) <= Total(threads, weight)
  {
    if t == 0 {
    } else {
      TotalCovers(threads[1..], t - 1, weight);
    }
  }

  /** Two threads' weights are both part of the sum. */
  lemma {:induction false} TotalCoversTwo<P>(threads: seq<P>, t: nat, u: nat, weight: P -> nat)
    requires t < u < |threads|
    ensures weight(threads[t]) + weight(threads[u]) <= Total(threads, weight)
  {
    if t > 0 {
      TotalCoversTwo(threads[1..], t - 1, u - 1, weight);
    } else {
      TotalCovers(threads[1..], u - 1, weight);
    }
  }

  /** A positive sum has a thread of positive weight. */
  lemma {:induction false} TotalWitness<P>(threads: seq<P>, weight: P -> nat) returns (t: nat)
    requires Total(threads, weight) > 0
    ensures t < |threads| && weight(threads[t]) > 0
  {
    if weight(threads[0]) > 0 {
      t := 0;
    } else {
      var u := TotalWitness(threads[1..], weight);
      t := u + 1;
    }
  }

  /** Weights of at most one sum to at most the number of threads. */
  lemma {:induction false} TotalBounded<P>(threads: seq<P>, weight: P -> nat)
    requires forall t :: 0 <= t < |threads| ==> weight(threads[t]) <= 1
    ensures Total(threads, weight) <= |threads|
  {
    if threads == [] {
    } else {
      TotalBounded(threads[1..], weight);
    }
  }

  /** A pointwise inequality between weights carries over to the sums. */
  lemma {:induction false} TotalMonotone<P>(threads: seq<P>, threads': seq<P>, lower: P -> nat, upper: P -> nat)
    requires |threads| == |threads'|
    requires forall t :: 0 <= t < |threads| ==> lower(threads[t]) <= upper(threads'[t])
    ensures Total(threads, lower) <= Total(threads', upper)
  {
    if threads == [] {
    } else {
      TotalMonotone(threads[1..], threads'[1..], lower, upper);
    }
  }

  /** Threads that all weigh nothing sum to zero. */
  lemma {:induction false} TotalNone<P>(threads: seq<P>, weight: P -> nat)
    requires forall t :: 0 <= t < |threads| ==> weight(threads[t]) == 0
    ensures Total(threads, weight) == 0
  {
    if threads == [] {
    } else {
      TotalNone(threads[1..], weight);
    }
  }

  /** A weight that is the sum of two others sums to their two sums. */
  lemma {:induction false} TotalSum<P>(threads: seq<P>, left: P -> nat, right: P -> nat, both: P -> nat)
    requires forall t :: 0 <= t < |threads| ==> both(threads[t]) == left(threads[t]) + right(threads[t])
    ensures Total(threads, both) == Total(threads, left) + Total(threads, right)
  {
    if threads == [] {
    } else {
      TotalSum(threads[1..], left, right, both);
    }
  }
}
