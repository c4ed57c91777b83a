/**
 * The random source every generation phase draws from. The Java code calls the
 * global `Math.random()`; here the source is an explicit object holding a stream
 * of draws, so every phase is deterministic in the stream it is handed. The
 * contracts state only the range of each draw and how many were taken: what
 * the phases promise holds whatever the draws are.
 */
module Rand {

  /** A value of `Math.random()`: a real in [0, 1). */
  type Unit = r: real | 0.0 <= r < 1.0

  /** Java's `(int)` cast of a double: truncation toward zero. */
  function Trunc(v: real): (i: int)
    ensures 0.0 <= v ==> 0 <= i && i as real <= v < i as real + 1.0
    ensures v < 0.0 ==> i <= 0 && i as real - 1.0 < v <= i as real
  {
    if v >= 0.0 then v.Floor else -((-v).Floor)
  }

  /** Java's `a / 2` on ints, which truncates toward zero (Dafny's `/` is Euclidean). */
  function JavaHalf(a: int): (q: int)
    ensures a >= 0 ==> 0 <= 2 * q <= a < 2 * q + 2
    ensures a < 0 ==> 2 * q - 2 < a <= 2 * q <= 0
  {
    if a >= 0 then a / 2 else -((-a) / 2)
  }

  lemma ProductBelow(r: real, n: real)
    requires 0.0 <= r < 1.0 && 0.0 < n
    ensures 0.0 <= r * n < n
  {
  }

  /** `(int)(r * n)` for a draw r: an index below n. */
  function Scale(r: Unit, n: nat): (k: nat)
    requires n > 0
    ensures k < n
    ensures k as real <= r * n as real < k as real + 1.0
  {
    ProductBelow(r, n as real);
    Trunc(r * n as real)
  }

  /** The sequence with the entries at i and j exchanged. */
  function Swap<T>(s: seq<T>, i: nat, j: nat): (r: seq<T>)
    requires i < |s| && j < |s|
    ensures |r| == |s| && r[i] == s[j] && r[j] == s[i]
    ensures forall k :: 0 <= k < |s| && k != i && k != j ==> r[k] == s[k]
    ensures multiset(r) == multiset(s)
  {
    var r := s[i := s[j]][j := s[i]];
    SwapMultiset(s, i, j);
    r
  }

  lemma {:induction false} SwapMultiset<T>(s: seq<T>, i: nat, j: nat)
    requires i < |s| && j < |s|
    ensures multiset(s[i := s[j]][j := s[i]]) == multiset(s)
  {
    var t := s[i := s[j]];
    assert multiset(t) == multiset(s) - multiset{s[i]} + multiset{s[j]};
    assert multiset(t[j := s[i]]) == multiset(t) - multiset{t[j]} + multiset{s[i]};
  }

  /** The injectable random source: the draws it will return, and how many it has returned. */
  class Random {
    const draws: nat -> Unit
    var drawn: nat

    constructor (draws: nat -> Unit)
      ensures this.draws == draws && drawn == 0
    {
      this.draws := draws;
      drawn := 0;
    }

    /** `Math.random()` */
    method NextDouble() returns (r: Unit)
      modifies this
      ensures r == draws(old(drawn)) && drawn == old(drawn) + 1
    {
      r := draws(drawn);
      drawn := drawn + 1;
    }

    /** `(int)(Math.random() * n)` */
    method NextInt(n: nat) returns (k: nat)
      requires n > 0
      modifies this
      ensures k < n && drawn == old(drawn) + 1
    {
      var r := NextDouble();
      k := Scale(r, n);
    }

    /**
     * `Collections.shuffle(list)`: from the last position down to the second,
     * swap each entry with one at a drawn position at or before it.
     */
    method Shuffle<T>(s: seq<T>) returns (r: seq<T>)
      modifies this
      ensures multiset(r) == multiset(s)
      ensures drawn == old(drawn) + (if |s| > 1 then |s| - 1 else 0)
    {
      r := s;
      var i := |s|;
      while i > 1
        invariant 0 <= i <= |s| && (|s| > 0 ==> i >= 1) && |r| == |s| && multiset(r) == multiset(s)
        invariant drawn == old(drawn) + (if |s| > 1 then |s| - i else 0)
      {
        var j := NextInt(i);
        r := Swap(r, i - 1, j);
        i := i - 1;
      }
    }
  }
}
