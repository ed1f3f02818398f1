/**
 * The two random primitives the question engine uses, with the random
 * numbers supplied as a stream `rand: nat -> nat` so that every property is
 * proved for every outcome.
 */
module Sampling {

  /**
   * `random.sample(pool, k)`: `k` draws without replacement; draw `i` takes
   * position `rand(i) % |remaining|` of what is left.
   */
  function Sample(pool: seq<string>, k: nat, rand: nat -> nat): (r: seq<string>)
    requires k <= |pool|
    ensures |r| == k
    ensures multiset(r) <= multiset(pool)
    decreases k
  {
    if k == 0 then []
    else
      var j := rand(0) % |pool|;
      var rest := pool[..j] + pool[j + 1..];
      assert pool == pool[..j] + [pool[j]] + pool[j + 1..];
      [pool[j]] + Sample(rest, k - 1, i => rand(i + 1))
  }

  /** `p` is a bijection of the indices `0 .. n-1`. */
  predicate IsPermutation(p: seq<nat>, n: nat)
  {
    && |p| == n
    && (forall k :: 0 <= k < n ==> p[k] < n)
    && (forall k, l :: 0 <= k < l < n ==> p[k] != p[l])
  }

  /** Exchanging two entries of a permutation keeps it a permutation. */
  lemma SwapKeepsPermutation(p: seq<nat>, n: nat, i: nat, j: nat)
    requires IsPermutation(p, n) && i < n && j < n
    ensures IsPermutation(p[i := p[j]][j := p[i]], n)
  {
    var q := p[i := p[j]][j := p[i]];
    forall k, l | 0 <= k < l < n ensures q[k] != q[l] {
      var k' := if k == i then j else if k == j then i else k;
      var l' := if l == i then j else if l == j then i else l;
      assert q[k] == p[k'] && q[l] == p[l'] && k' != l';
      if k' < l' { assert p[k'] != p[l']; } else { assert p[l'] != p[k']; }
    }
  }

  /** Exchange the elements at positions `i` and `j`, as the shuffle's swap step does. */
  method Swap(a: array<string>, i: nat, j: nat)
    requires i < a.Length && j < a.Length
    modifies a
    ensures a[..] == old(a[..])[i := old(a[j])][j := old(a[i])]
    ensures multiset(a[..]) == multiset(old(a[..]))
  {
    a[i], a[j] := a[j], a[i];
  }

  /** Every position `k` of `cur` holds the element at position `perm[k]` of `orig`. */
  predicate Tracks(cur: seq<string>, orig: seq<string>, perm: seq<nat>)
  {
    |cur| == |perm| && forall k :: 0 <= k < |cur| ==> perm[k] < |orig| && cur[k] == orig[perm[k]]
  }

  lemma SwapKeepsTracks(cur: seq<string>, orig: seq<string>, perm: seq<nat>, i: nat, j: nat)
    requires Tracks(cur, orig, perm) && i < |cur| && j < |cur|
    ensures Tracks(cur[i := cur[j]][j := cur[i]], orig, perm[i := perm[j]][j := perm[i]])
  {
  }

  /**
   * `random.shuffle(a)` in place, as CPython does it: for `i` from the last
   * index down to 1, swap `a[i]` with `a[j]`, `j` drawn from `0 .. i`.
   * The ghost `perm` says where each element came from.
   */
  method Shuffle(a: array<string>, rand: nat -> nat) returns (ghost perm: seq<nat>)
    modifies a
    ensures multiset(a[..]) == multiset(old(a[..]))
    ensures IsPermutation(perm, a.Length)
    ensures Tracks(a[..], old(a[..]), perm)
  {
    ghost var s0 := a[..];
    perm := seq(a.Length, k => k);
    var i := a.Length - 1;
    while i > 0
      invariant -1 <= i < a.Length
      invariant multiset(a[..]) == multiset(s0)
      invariant IsPermutation(perm, a.Length)
      invariant Tracks(a[..], s0, perm)
    {
      var j := rand(a.Length - 1 - i) % (i + 1);
      SwapKeepsTracks(a[..], s0, perm, i, j);
      SwapKeepsPermutation(perm, a.Length, i, j);
      Swap(a, i, j);
      perm := perm[i := perm[j]][j := perm[i]];
      i := i - 1;
    }
  }
}
