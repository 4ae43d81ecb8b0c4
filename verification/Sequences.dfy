/** Mapping over lists. */
module Sequences {

  function Map<T, U>(f: T -> U, xs: seq<T>): (r: seq<U>)
    ensures |r| == |xs|
    ensures forall i | 0 <= i < |xs| :: r[i] == f(xs[i])
  {
    seq(|xs|, i requires 0 <= i < |xs| => f(xs[i]))
  }

  function FlatMap<T, U>(f: T -> seq<U>, xs: seq<T>): seq<U> {
    if xs == [] then [] else FlatMap(f, xs[..|xs| - 1]) + f(xs[|xs| - 1])
  }

  lemma FlatMapAppend<T, U>(f: T -> seq<U>, xs: seq<T>, x: T)
    ensures FlatMap(f, xs + [x]) == FlatMap(f, xs) + f(x)
  {
    assert (xs + [x])[..|xs|] == xs;
  }

  lemma FlatMapOne<T, U>(f: T -> seq<U>, x: T)
    ensures FlatMap(f, [x]) == f(x)
  {
    assert [x][..0] == [];
    assert FlatMap(f, [x][..0]) == [];
  }

  lemma {:induction false} FlatMapConcat<T, U>(f: T -> seq<U>, xs: seq<T>, ys: seq<T>)
    ensures FlatMap(f, xs + ys) == FlatMap(f, xs) + FlatMap(f, ys)
  {
    if ys == [] {
      assert xs + ys == xs;
    } else {
      var init := ys[..|ys| - 1];
      FlatMapConcat(f, xs, init);
      assert (xs + ys)[..|xs + ys| - 1] == xs + init;
      assert FlatMap(f, xs + ys) == FlatMap(f, xs + init) + f(ys[|ys| - 1]);
    }
  }

  lemma MapAround<T, U>(f: T -> U, before: seq<T>, x: T, after: seq<T>)
    ensures Map(f, before + [x] + after) == Map(f, before) + [f(x)] + Map(f, after)
  {
  }

  lemma FlatMapAround<T, U>(f: T -> seq<U>, before: seq<T>, x: T, after: seq<T>)
    ensures FlatMap(f, before + [x] + after) == FlatMap(f, before) + f(x) + FlatMap(f, after)
  {
    FlatMapAppend(f, before, x);
    FlatMapConcat(f, before + [x], after);
  }
}
