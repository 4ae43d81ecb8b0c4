/** Counting the elements of a list that satisfy a predicate. */
module Counting {

  function Count<T>(xs: seq<T>, p: T -> bool): nat {
    if xs == [] then 0 else Count(xs[..|xs| - 1], p) + if p(xs[|xs| - 1]) then 1 else 0
  }

  lemma CountAppend<T>(xs: seq<T>, x: T, p: T -> bool)
    ensures Count(xs + [x], p) == Count(xs, p) + if p(x) then 1 else 0
  {
    assert (xs + [x])[..|xs|] == xs;
  }

  lemma {:induction false} CountRemove<T>(xs: seq<T>, j: nat, p: T -> bool)
    requires j < |xs|
    ensures Count(xs, p) == Count(xs[..j] + xs[j + 1..], p) + if p(xs[j]) then 1 else 0
  {
    var n := |xs| - 1;
    if j == n {
      assert xs[..j] + xs[j + 1..] == xs[..n];
    } else {
      CountRemove(xs[..n], j, p);
      var rest := xs[..j] + xs[j + 1..];
      assert rest == (xs[..n][..j] + xs[..n][j + 1..]) + [xs[n]];
      CountAppend(xs[..n][..j] + xs[..n][j + 1..], xs[n], p);
    }
  }

  /** Fewer elements, no higher count. */
  lemma {:induction false} CountMonotone<T>(xs: seq<T>, ys: seq<T>, p: T -> bool)
    requires multiset(xs) <= multiset(ys)
    ensures Count(xs, p) <= Count(ys, p)
  {
    if xs != [] {
      var n := |xs| - 1;
      assert xs == xs[..n] + [xs[n]];
      assert xs[n] in multiset(ys);
      var j :| 0 <= j < |ys| && ys[j] == xs[n];
      CountRemove(ys, j, p);
      assert ys == ys[..j] + [ys[j]] + ys[j + 1..];
      assert multiset(ys[..j] + ys[j + 1..]) == multiset(ys) - multiset{xs[n]};
      CountMonotone(xs[..n], ys[..j] + ys[j + 1..], p);
    }
  }

  /** Order does not change a count. */
  lemma CountPermutation<T>(xs: seq<T>, ys: seq<T>, p: T -> bool)
    requires multiset(xs) == multiset(ys)
    ensures Count(xs, p) == Count(ys, p)
  {
    CountMonotone(xs, ys, p);
    CountMonotone(ys, xs, p);
  }

  lemma {:induction false} CountAtMostLength<T>(xs: seq<T>, p: T -> bool)
    ensures Count(xs, p) <= |xs|
  {
    if xs != [] {
      CountAtMostLength(xs[..|xs| - 1], p);
    }
  }

  lemma SameElements<T>(xs: seq<T>, ys: seq<T>)
    requires multiset(xs) == multiset(ys)
    ensures forall r :: r in xs <==> r in ys
    ensures |xs| == |ys|
  {
    forall r ensures r in xs <==> r in ys {
      assert r in xs <==> r in multiset(xs);
      assert r in ys <==> r in multiset(ys);
    }
    assert |multiset(xs)| == |multiset(ys)|;
  }
}
