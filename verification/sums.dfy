/** Sums of a real-valued column over a sequence of records, and the algebra
    the profit/loss model needs about them. */
module Sums {

  /** The sum of `f` over every element of `xs`, in sequence order. */
  function SumOver<T>(xs: seq<T>, f: T -> real): real
  {
    if |xs| == 0 then 0.0 else f(xs[0]) + SumOver(xs[1..], f)
  }

  /** Summing a concatenation sums each part. */
  lemma {:induction false} SumOverAppend<T>(xs: seq<T>, ys: seq<T>, f: T -> real)
    ensures SumOver(xs + ys, f) == SumOver(xs, f) + SumOver(ys, f)
  {
    if |xs| == 0 {
      assert xs + ys == ys;
    } else {
      assert (xs + ys)[1..] == xs[1..] + ys;
      SumOverAppend(xs[1..], ys, f);
    }
  }

  /** Taking one element out of a sequence takes its term out of the sum. */
  lemma SumOverRemove<T>(xs: seq<T>, k: nat, f: T -> real)
    requires k < |xs|
    ensures SumOver(xs, f) == f(xs[k]) + SumOver(xs[..k] + xs[k + 1..], f)
  {
    assert xs == xs[..k] + ([xs[k]] + xs[k + 1..]);
    SumOverAppend(xs[..k], [xs[k]] + xs[k + 1..], f);
    SumOverAppend([xs[k]], xs[k + 1..], f);
    SumOverAppend(xs[..k], xs[k + 1..], f);
  }

  /** Removing the element at `k` removes one occurrence of it from the multiset. */
  lemma MultisetRemove<T>(xs: seq<T>, k: nat)
    requires k < |xs|
    ensures multiset(xs[..k] + xs[k + 1..]) == multiset(xs) - multiset{xs[k]}
  {
    assert xs == xs[..k] + [xs[k]] + xs[k + 1..];
  }

  /** The first element of `xs` sits at some index `k` of a permutation
      `ys`, and the remainders are again permutations of each other. */
  lemma PermutationHead<T>(xs: seq<T>, ys: seq<T>) returns (k: nat)
    requires |xs| > 0
    requires multiset(xs) == multiset(ys)
    ensures k < |ys| && ys[k] == xs[0]
    ensures multiset(xs[1..]) == multiset(ys[..k] + ys[k + 1..])
  {
    assert xs[0] in multiset(ys);
    k :| 0 <= k < |ys| && ys[k] == xs[0];
    MultisetRemove(ys, k);
    MultisetRemove(xs, 0);
    assert xs[..0] + xs[1..] == xs[1..];
  }

  /** A sum does not depend on the order of its terms. */
  lemma {:induction false} SumOverPermutation<T>(xs: seq<T>, ys: seq<T>, f: T -> real)
    requires multiset(xs) == multiset(ys)
    ensures SumOver(xs, f) == SumOver(ys, f)
  {
    if |xs| == 0 {
      assert |multiset(ys)| == 0;
    } else {
      var k := PermutationHead(xs, ys);
      SumOverRemove(ys, k, f);
      SumOverPermutation(xs[1..], ys[..k] + ys[k + 1..], f);
    }
  }

  /** A sum of non-negative terms is non-negative. */
  lemma {:induction false} SumOverNonNegative<T>(xs: seq<T>, f: T -> real)
    requires forall i :: 0 <= i < |xs| ==> f(xs[i]) >= 0.0
    ensures SumOver(xs, f) >= 0.0
  {
    if |xs| > 0 {
      assert f(xs[0]) >= 0.0;
      SumOverNonNegative(xs[1..], f);
    }
  }

  /** A sum of zero terms is zero. */
  lemma {:induction false} SumOverZero<T>(xs: seq<T>, f: T -> real)
    requires forall i :: 0 <= i < |xs| ==> f(xs[i]) == 0.0
    ensures SumOver(xs, f) == 0.0
  {
    if |xs| > 0 {
      assert f(xs[0]) == 0.0;
      SumOverZero(xs[1..], f);
    }
  }

  /** If each term is `c` times a second column minus a third, the sums are
      related the same way. */
  lemma {:induction false} SumOverLinear<T>(xs: seq<T>, f: T -> real, g: T -> real, h: T -> real, c: real)
    requires forall i :: 0 <= i < |xs| ==> f(xs[i]) == c * g(xs[i]) - h(xs[i])
    ensures SumOver(xs, f) == c * SumOver(xs, g) - SumOver(xs, h)
  {
    if |xs| > 0 {
      assert f(xs[0]) == c * g(xs[0]) - h(xs[0]);
      assert forall i :: 0 <= i < |xs[1..]| ==> xs[1..][i] == xs[i + 1];
      SumOverLinear(xs[1..], f, g, h, c);
    }
  }
}
