/** `param_combinations` (src/graph.rs): the Cartesian product of the parameter values, built by
    nested loops, against the mixed-radix numbering of its entries. */
module ParamCombinations {

  type Params = seq<(string, seq<string>)>

  function Product(kv: Params): nat {
    if kv == [] then 1 else Product(kv[..|kv| - 1]) * |kv[|kv| - 1].1|
  }

  /** Entry `i`: the last key takes the lowest digit of `i`, the other keys the rest. */
  function Entry(kv: Params, i: nat): (e: seq<(string, string)>)
    requires i < Product(kv)
    ensures |e| == |kv|
  {
    if kv == [] then []
    else
      var key, values := kv[|kv| - 1].0, kv[|kv| - 1].1;
      SplitIndex(i, Product(kv[..|kv| - 1]), |values|);
      Entry(kv[..|kv| - 1], i / |values|) + [(key, values[i % |values|])]
  }

  lemma MulMono(a: int, b: int, n: nat)
    requires a <= b
    ensures a * n <= b * n
  {
    assert (b - a) * n == b * n - a * n;
  }

  lemma SplitIndex(i: nat, p: nat, n: nat)
    requires i < p * n
    ensures n > 0 && i / n < p && i % n < n && i == (i / n) * n + i % n
  {
    assert n > 0;
    if i / n >= p {
      MulMono(p, i / n, n);
    }
  }

  lemma DivUnique(e: nat, v: nat, n: nat)
    requires v < n
    ensures (e * n + v) / n == e && (e * n + v) % n == v
  {
    var q, r := (e * n + v) / n, (e * n + v) % n;
    assert q * n + r == e * n + v;
    assert (e + 1) * n == e * n + n && (q + 1) * n == q * n + n;
    if q > e {
      MulMono(e + 1, q, n);
    } else if q < e {
      MulMono(q + 1, e, n);
    }
  }

  lemma JoinIndex(e: nat, v: nat, p: nat, n: nat)
    requires e < p && v < n
    ensures e * n + v < p * n && (e * n + v) / n == e && (e * n + v) % n == v
  {
    MulMono(e + 1, p, n);
    assert (e + 1) * n == e * n + n;
    DivUnique(e, v, n);
  }

  method Combine(kv: Params) returns (out: seq<seq<(string, string)>>)
    ensures |out| == Product(kv)
    ensures forall i | 0 <= i < |out| :: out[i] == Entry(kv, i)
  {
    if kv == [] {
      return [[]];
    }
    out := [[]];
    for k := 0 to |kv|
      invariant |out| == Product(kv[..k])
      invariant forall i | 0 <= i < |out| :: out[i] == Entry(kv[..k], i)
    {
      assert kv[..k + 1][..k] == kv[..k];
      out := Extend(kv[..k + 1], out);
    }
    assert kv[..|kv|] == kv;
  }

  /** Pairs every combination so far with every value of the last key. */
  method Extend(kv: Params, out: seq<seq<(string, string)>>) returns (next: seq<seq<(string, string)>>)
    requires kv != [] && |out| == Product(kv[..|kv| - 1])
    requires forall i | 0 <= i < |out| :: out[i] == Entry(kv[..|kv| - 1], i)
    ensures |next| == Product(kv)
    ensures forall i | 0 <= i < |next| :: next[i] == Entry(kv, i)
  {
    var key, values := kv[|kv| - 1].0, kv[|kv| - 1].1;
    next := [];
    for e := 0 to |out|
      invariant |next| == e * |values| <= Product(kv)
      invariant forall i | 0 <= i < |next| :: next[i] == Entry(kv, i)
    {
      MulMono(e + 1, |out|, |values|);
      assert (e + 1) * |values| == e * |values| + |values|;
      for v := 0 to |values|
        invariant |next| == e * |values| + v <= Product(kv)
        invariant forall i | 0 <= i < |next| :: next[i] == Entry(kv, i)
      {
        DivUnique(e, v, |values|);
        next := next + [out[e] + [(key, values[v])]];
      }
    }
  }

  /** How many entries share one value of key `j`: the product of the later counts. */
  function Stride(kv: Params, j: nat): nat
    requires j < |kv|
  {
    if j == |kv| - 1 then 1 else Stride(kv[..|kv| - 1], j) * |kv[|kv| - 1].1|
  }

  lemma Regroup(q: nat, b: nat, s: nat, a: nat)
    ensures (q * b + s) * a == q * (a * b) + s * a
  {
    assert (q * b + s) * a == q * b * a + s * a;
    assert q * b * a == q * (b * a);
  }

  lemma DivDiv(i: nat, a: nat, b: nat)
    requires a > 0 && b > 0
    ensures a * b > 0 && (i / a) / b == i / (a * b)
  {
    var x := i / a;
    var q, s, r := x / b, x % b, i % a;
    DivMod(i, a);
    DivMod(x, b);
    Regroup(q, b, s, a);
    Remainder(s, r, a, b);
    WholeQuotient(i, q, s * a + r, a * b);
  }

  lemma DivMod(i: nat, n: nat)
    requires n > 0
    ensures i == (i / n) * n + i % n && i % n < n
  {
  }

  lemma WholeQuotient(i: nat, q: nat, r: nat, n: nat)
    requires r < n && i == q * n + r
    ensures i / n == q
  {
    DivUnique(q, r, n);
  }

  lemma Remainder(s: nat, r: nat, a: nat, b: nat)
    requires s < b && r < a
    ensures s * a + r < a * b
  {
    MulMono(s + 1, b, a);
    assert (s + 1) * a == s * a + a;
  }

  /** Entry `i` selects exactly the mixed-radix digits of `i`, the last key fastest. */
  lemma {:induction false} EntryDigits(kv: Params, i: nat, j: nat)
    requires i < Product(kv) && j < |kv|
    ensures Stride(kv, j) > 0 && |kv[j].1| > 0
    ensures Entry(kv, i)[j] == (kv[j].0, kv[j].1[(i / Stride(kv, j)) % |kv[j].1|])
  {
    var n := |kv| - 1;
    var values := kv[n].1;
    SplitIndex(i, Product(kv[..n]), |values|);
    if j < n {
      EntryDigits(kv[..n], i / |values|, j);
      assert kv[..n][j] == kv[j];
      DivDiv(i, |values|, Stride(kv[..n], j));
      assert |values| * Stride(kv[..n], j) == Stride(kv[..n], j) * |values|;
    }
  }

  ghost predicate DuplicateFree(kv: Params) {
    forall k, a, b | 0 <= k < |kv| && 0 <= a < b < |kv[k].1| :: kv[k].1[a] != kv[k].1[b]
  }

  /** Entries are pairwise distinct when no value list repeats a value. */
  lemma {:induction false} EntriesDistinct(kv: Params, i: nat, j: nat)
    requires DuplicateFree(kv) && i < Product(kv) && j < Product(kv) && i != j
    ensures Entry(kv, i) != Entry(kv, j)
  {
    if kv != [] {
      var n := |kv| - 1;
      assert forall k | 0 <= k < n :: kv[..n][k] == kv[k];
      var e, v := EntryParts(kv, i);
      var f, w := EntryParts(kv, j);
      if v != w {
        assert kv[n].1[v] != kv[n].1[w];
      } else if e != f {
        EntriesDistinct(kv[..n], e, f);
      }
    }
  }

  /** The last selection of an entry and the entry before it. */
  lemma EntryParts(kv: Params, i: nat) returns (e: nat, v: nat)
    requires kv != [] && i < Product(kv)
    ensures var n := |kv| - 1;
            && v < |kv[n].1| && e < Product(kv[..n]) && i == e * |kv[n].1| + v
            && Entry(kv, i)[..n] == Entry(kv[..n], e) && Entry(kv, i)[n] == (kv[n].0, kv[n].1[v])
  {
    var n := |kv| - 1;
    SplitIndex(i, Product(kv[..n]), |kv[n].1|);
    e, v := i / |kv[n].1|, i % |kv[n].1|;
  }

  ghost predicate Selects(kv: Params, choice: seq<(string, string)>) {
    |choice| == |kv| && forall k | 0 <= k < |kv| :: choice[k].0 == kv[k].0 && choice[k].1 in kv[k].1
  }

  /** Every way of selecting one value per key is an entry. */
  lemma {:induction false} EntriesComplete(kv: Params, choice: seq<(string, string)>) returns (i: nat)
    requires Selects(kv, choice)
    ensures i < Product(kv) && Entry(kv, i) == choice
  {
    if kv == [] {
      i := 0;
    } else {
      var n := |kv| - 1;
      var values := kv[n].1;
      assert forall k | 0 <= k < n :: kv[..n][k] == kv[k] && choice[..n][k] == choice[k];
      var e := EntriesComplete(kv[..n], choice[..n]);
      var v :| 0 <= v < |values| && values[v] == choice[n].1;
      JoinIndex(e, v, Product(kv[..n]), |values|);
      i := e * |values| + v;
      assert choice == choice[..n] + [choice[n]];
    }
  }
}
