/** Sequences of anything. */
module Sequences {

  function Flatten<T>(ls: seq<seq<T>>): seq<T> {
    if ls == [] then [] else ls[0] + Flatten(ls[1..])
  }

  lemma {:induction false} FlattenAppend<T>(ls: seq<seq<T>>, l: seq<T>)
    ensures Flatten(ls + [l]) == Flatten(ls) + l
    decreases |ls|
  {
    if ls == [] {
      assert ls + [l] == [l] && [l][1..] == [] && Flatten([l]) == l + [];
    } else {
      assert (ls + [l])[1..] == ls[1..] + [l];
      FlattenAppend(ls[1..], l);
    }
  }

  /** xs can be had from ys by striking out elements. */
  predicate Subsequence<T(==)>(xs: seq<T>, ys: seq<T>)
    decreases |ys|
  {
    xs == [] || (ys != [] && ((xs[0] == ys[0] && Subsequence(xs[1..], ys[1..])) || Subsequence(xs, ys[1..])))
  }

  /** Each element under the same address. */
  function To<A, T>(addr: A, xs: seq<T>): seq<(A, T)> {
    seq(|xs|, i requires 0 <= i < |xs| => (addr, xs[i]))
  }

  lemma ToConcat<A, T>(addr: A, a: seq<T>, b: seq<T>)
    ensures To(addr, a + b) == To(addr, a) + To(addr, b)
  {
  }

  lemma ToNobody<A, T>(addr: A)
    ensures To<A, T>(addr, []) == []
  {
  }

  lemma ToOne<A, T>(addr: A, x: T)
    ensures To(addr, [x]) == [(addr, x)]
  {
  }
}
