/** Optional values: the `None` a Python lookup returns when nothing is found. */
module Wrappers {

  datatype Option<+T> = None | Some(value: T)

  /** The smaller of two naturals (Python's `min`). */
  function Min(a: nat, b: nat): nat
  {
    if a <= b then a else b
  }

  /** The position of the first element satisfying `p`: where a retry loop over attempts stops. */
  function FirstWhere<A>(xs: seq<A>, p: A -> bool): (r: Option<nat>)
    ensures r.Some? ==> r.value < |xs| && p(xs[r.value])
    ensures r.Some? ==> forall k :: 0 <= k < r.value ==> !p(xs[k])
    ensures r.None? <==> forall k :: 0 <= k < |xs| ==> !p(xs[k])
  {
    if xs == [] then None
    else if p(xs[0]) then Some(0)
    else
      var rest := FirstWhere(xs[1..], p);
      assert forall k :: 1 <= k < |xs| ==> xs[k] == xs[1..][k - 1];
      if rest.None? then None else Some(rest.value + 1)
  }

  /** `x` is `y` with some elements left out, order kept. */
  predicate Subsequence<T(==)>(x: seq<T>, y: seq<T>)
    decreases |y|
  {
    x == [] || (y != [] && ((x[0] == y[0] && Subsequence(x[1..], y[1..])) || Subsequence(x, y[1..])))
  }

  /** A subsequence is never longer than the sequence it is taken from. */
  lemma {:induction false} SubsequenceLength<T>(x: seq<T>, y: seq<T>)
    requires Subsequence(x, y)
    ensures |x| <= |y|
    decreases |y|
  {
    if x != [] {
      if x[0] == y[0] && Subsequence(x[1..], y[1..]) {
        SubsequenceLength(x[1..], y[1..]);
      } else {
        SubsequenceLength(x, y[1..]);
      }
    }
  }

  /** Appending to the longer sequence keeps a subsequence one. */
  lemma {:induction false} SubsequenceSnocRight<T>(x: seq<T>, y: seq<T>, a: T)
    requires Subsequence(x, y)
    ensures Subsequence(x, y + [a])
    decreases |y|
  {
    if x != [] {
      assert (y + [a])[0] == y[0] && (y + [a])[1..] == y[1..] + [a];
      if x[0] == y[0] && Subsequence(x[1..], y[1..]) {
        SubsequenceSnocRight(x[1..], y[1..], a);
      } else {
        SubsequenceSnocRight(x, y[1..], a);
      }
    }
  }

  /** Appending the same element to both keeps a subsequence one. */
  lemma {:induction false} SubsequenceSnocBoth<T>(x: seq<T>, y: seq<T>, a: T)
    requires Subsequence(x, y)
    ensures Subsequence(x + [a], y + [a])
    decreases |y|
  {
    assert (y + [a])[0] == (if y == [] then a else y[0]);
    assert y != [] ==> (y + [a])[1..] == y[1..] + [a];
    if x == [] {
      if y == [] {
        assert [a][1..] == [];
      } else {
        SubsequenceSnocBoth(x, y[1..], a);
      }
    } else {
      assert (x + [a])[0] == x[0] && (x + [a])[1..] == x[1..] + [a];
      if x[0] == y[0] && Subsequence(x[1..], y[1..]) {
        SubsequenceSnocBoth(x[1..], y[1..], a);
      } else {
        SubsequenceSnocBoth(x, y[1..], a);
      }
    }
  }
}
