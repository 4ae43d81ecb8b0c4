/** The stable sort that `sort_by` and `sort_by_key` provide, as a function, and the facts
    about it that the rest of the model needs. */
module Sorting {

  ghost predicate TotalPreorder<T(!new)>(le: (T, T) -> bool) {
    && (forall x, y :: le(x, y) || le(y, x))
    && (forall x, y, z :: le(x, y) && le(y, z) ==> le(x, z))
  }

  ghost predicate Sorted<T>(le: (T, T) -> bool, xs: seq<T>) {
    forall i, j | 0 <= i < j < |xs| :: le(xs[i], xs[j])
  }

  /** Puts `x` after every element it does not precede strictly. */
  function Insert<T>(le: (T, T) -> bool, s: seq<T>, x: T): (r: seq<T>)
    ensures multiset(r) == multiset(s) + multiset{x}
  {
    if s == [] then [x]
    else
      var last := s[|s| - 1];
      assert s == s[..|s| - 1] + [last];
      if le(last, x) then s + [x] else Insert(le, s[..|s| - 1], x) + [last]
  }

  function SortBy<T>(le: (T, T) -> bool, xs: seq<T>): (r: seq<T>)
    ensures multiset(r) == multiset(xs)
    ensures |r| == |xs|
  {
    if xs == [] then []
    else
      assert xs == xs[..|xs| - 1] + [xs[|xs| - 1]];
      var r := Insert(le, SortBy(le, xs[..|xs| - 1]), xs[|xs| - 1]);
      assert |multiset(r)| == |multiset(xs)|;
      r
  }

  lemma {:induction false} InsertKeepsSorted<T(!new)>(le: (T, T) -> bool, s: seq<T>, x: T)
    requires TotalPreorder(le) && Sorted(le, s)
    ensures Sorted(le, Insert(le, s, x))
  {
    if s != [] && !le(s[|s| - 1], x) {
      var init := s[..|s| - 1];
      InsertKeepsSorted(le, init, x);
      var r := Insert(le, init, x);
      forall i | 0 <= i < |r| ensures le(r[i], s[|s| - 1]) {
        assert r[i] in multiset(r);
        assert r[i] in multiset(init) + multiset{x};
        assert r[i] == x || r[i] in init;
      }
    }
  }

  lemma {:induction false} SortBySorts<T(!new)>(le: (T, T) -> bool, xs: seq<T>)
    requires TotalPreorder(le)
    ensures Sorted(le, SortBy(le, xs))
  {
    if xs != [] {
      SortBySorts(le, xs[..|xs| - 1]);
      InsertKeepsSorted(le, SortBy(le, xs[..|xs| - 1]), xs[|xs| - 1]);
    }
  }

  /** Sorting what is already sorted changes nothing (stability). */
  lemma {:induction false} SortByOfSorted<T>(le: (T, T) -> bool, xs: seq<T>)
    requires Sorted(le, xs)
    ensures SortBy(le, xs) == xs
  {
    if xs != [] {
      SortedInit(le, xs);
      SortByOfSorted(le, xs[..|xs| - 1]);
      SortByLast(le, xs);
      InsertLast(le, xs[..|xs| - 1], xs[|xs| - 1]);
    }
  }

  lemma SortedInit<T>(le: (T, T) -> bool, xs: seq<T>)
    requires Sorted(le, xs) && xs != []
    ensures var init, last := xs[..|xs| - 1], xs[|xs| - 1];
            Sorted(le, init) && (init != [] ==> le(init[|init| - 1], last)) && xs == init + [last]
  {
  }

  lemma SortByLast<T>(le: (T, T) -> bool, xs: seq<T>)
    requires xs != []
    ensures SortBy(le, xs) == Insert(le, SortBy(le, xs[..|xs| - 1]), xs[|xs| - 1])
  {
  }

  lemma InsertLast<T>(le: (T, T) -> bool, s: seq<T>, x: T)
    requires s != [] ==> le(s[|s| - 1], x)
    ensures Insert(le, s, x) == s + [x]
  {
  }

  /** The heads of two sorted arrangements of the same elements tie. */
  lemma SortedHeadsTie<T(!new)>(le: (T, T) -> bool, xs: seq<T>, ys: seq<T>)
    requires Sorted(le, xs) && multiset(xs) == multiset(ys) && ys != []
    requires forall x | x in xs :: le(x, x)
    ensures xs != [] && ys[0] in xs && le(xs[0], ys[0])
  {
    assert ys[0] in multiset(ys);
    assert ys[0] in multiset(xs);
    var i :| 0 <= i < |xs| && xs[i] == ys[0];
    assert xs[0] in xs;
  }

  lemma TailMultiset<T>(xs: seq<T>)
    requires xs != []
    ensures multiset(xs[1..]) == multiset(xs) - multiset{xs[0]}
  {
    assert xs == [xs[0]] + xs[1..];
  }

  /** A sorted list is determined by its elements when no two different ones tie. */
  lemma {:induction false} SortedIsCanonical<T(!new)>(le: (T, T) -> bool, xs: seq<T>, ys: seq<T>)
    requires Sorted(le, xs) && Sorted(le, ys) && multiset(xs) == multiset(ys)
    requires forall x | x in xs :: le(x, x)
    requires forall x, y | x in xs && y in xs && le(x, y) && le(y, x) :: x == y
    ensures xs == ys
  {
    if xs == [] {
      assert |multiset(ys)| == 0;
    } else {
      assert |multiset(ys)| > 0;
      SortedHeadsTie(le, xs, ys);
      forall y | y in ys ensures y in xs {
        assert y in multiset(xs);
      }
      SortedHeadsTie(le, ys, xs);
      TailMultiset(xs);
      TailMultiset(ys);
      SortedIsCanonical(le, xs[1..], ys[1..]);
    }
  }
}
