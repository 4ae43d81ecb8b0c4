/** `tsp_like_local_ordering` (src/ordering.rs): greedy nearest-neighbour ordering. */
module NodeOrdering {
  import opened Types
  import opened Text
  import opened Sorting
  import opened Counting

  type Transitions = map<(string, string), real>

  function CompareStart(a: StrategyNode, b: StrategyNode): Ordering {
    CompareReal(a.cost, b.cost).Then(CompareReal(a.risk, b.risk)).Then(Compare(a.id, b.id))
  }

  function StartLe(): (StrategyNode, StrategyNode) -> bool {
    (a: StrategyNode, b: StrategyNode) => !CompareStart(a, b).Greater?
  }

  /** The cost of going from `last` to `next`: the table's entry, or else the node's own cost. */
  function StepCost(transition: Transitions, last: StrategyNode, next: StrategyNode): real {
    if (last.family, next.family) in transition then transition[(last.family, next.family)] else next.cost
  }

  function CompareNext(transition: Transitions, last: StrategyNode, a: StrategyNode, b: StrategyNode): Ordering {
    CompareReal(StepCost(transition, last, a), StepCost(transition, last, b))
      .Then(CompareReal(a.cost, b.cost))
      .Then(Compare(a.id, b.id))
  }

  predicate NoFarther(transition: Transitions, last: StrategyNode, a: StrategyNode, b: StrategyNode) {
    !CompareNext(transition, last, a, b).Greater?
  }

  lemma NoFartherLaws(transition: Transitions, last: StrategyNode, a: StrategyNode, b: StrategyNode, c: StrategyNode)
    ensures NoFarther(transition, last, a, b) || NoFarther(transition, last, b, a)
    ensures NoFarther(transition, last, a, b) && NoFarther(transition, last, b, c) ==> NoFarther(transition, last, a, c)
  {
    CompareLaws(a.id, b.id);
    CompareLaws(b.id, a.id);
    if !Compare(a.id, b.id).Greater? && !Compare(b.id, c.id).Greater? {
      CompareTransitive(a.id, b.id, c.id);
    }
  }

  lemma StartLeIsTotalPreorder()
    ensures TotalPreorder(StartLe())
  {
    var le := StartLe();
    forall a, b ensures le(a, b) || le(b, a) {
      CompareLaws(a.id, b.id);
      CompareLaws(b.id, a.id);
    }
    forall a, b, c | le(a, b) && le(b, c) ensures le(a, c) {
      if !Compare(a.id, b.id).Greater? && !Compare(b.id, c.id).Greater? {
        CompareTransitive(a.id, b.id, c.id);
      }
    }
  }

  ghost predicate Nearest(transition: Transitions, last: StrategyNode, next: StrategyNode, others: seq<StrategyNode>) {
    forall x | x in others :: NoFarther(transition, last, next, x)
  }

  /** `min_by`: the index of a nearest remaining node. */
  method FindNearest(transition: Transitions, last: StrategyNode, remaining: seq<StrategyNode>) returns (idx: nat)
    requires remaining != []
    ensures idx < |remaining| && Nearest(transition, last, remaining[idx], remaining)
  {
    idx := 0;
    for i := 0 to |remaining|
      invariant idx < |remaining|
      invariant forall j | 0 <= j < i :: NoFarther(transition, last, remaining[idx], remaining[j])
    {
      NoFartherLaws(transition, last, remaining[idx], remaining[i], remaining[i]);
      NoFartherLaws(transition, last, remaining[i], remaining[i], remaining[i]);
      if !NoFarther(transition, last, remaining[idx], remaining[i]) {
        forall j | 0 <= j < i ensures NoFarther(transition, last, remaining[i], remaining[j]) {
          NoFartherLaws(transition, last, remaining[i], remaining[idx], remaining[j]);
        }
        idx := i;
      }
    }
  }

  /** Every entry after the first is nearest to its predecessor among all nodes not yet emitted. */
  ghost predicate GreedyPath(transition: Transitions, out: seq<StrategyNode>) {
    forall k, m | 0 <= k < m < |out| :: NoFarther(transition, out[k], out[k + 1], out[m])
  }

  /** The starting order field by field: cost, risk, id. */
  ghost predicate StartsBefore(a: StrategyNode, b: StrategyNode) {
    || a.cost < b.cost
    || (a.cost == b.cost && a.risk < b.risk)
    || (a.cost == b.cost && a.risk == b.risk && NotAfter(a.id, b.id))
  }

  /** Going from `last` to `a` costs less than to `b`, then `a` itself costs less, then its id is
      smaller. A step costs what the table says for the two families, from the first to the second, or
      else what the node costs. */
  ghost predicate AtLeastAsNear(transition: Transitions, last: StrategyNode, a: StrategyNode, b: StrategyNode) {
    var toA := if (last.family, a.family) in transition then transition[(last.family, a.family)] else a.cost;
    var toB := if (last.family, b.family) in transition then transition[(last.family, b.family)] else b.cost;
    || toA < toB
    || (toA == toB && a.cost < b.cost)
    || (toA == toB && a.cost == b.cost && NotAfter(a.id, b.id))
  }

  lemma StartLeMeans(a: StrategyNode, b: StrategyNode)
    ensures StartLe()(a, b) <==> StartsBefore(a, b)
  {
    CompareIsLexicographic(a.id, b.id);
  }

  lemma NoFartherMeans(transition: Transitions, last: StrategyNode, a: StrategyNode, b: StrategyNode)
    ensures NoFarther(transition, last, a, b) <==> AtLeastAsNear(transition, last, a, b)
  {
    CompareIsLexicographic(a.id, b.id);
  }

  lemma PathMeans(transition: Transitions, nodes: seq<StrategyNode>, out: seq<StrategyNode>)
    requires GreedyPath(transition, out) && forall x | x in nodes :: out != [] && StartLe()(out[0], x)
    ensures forall x | x in nodes :: out != [] && StartsBefore(out[0], x)
    ensures forall k, m | 0 <= k < m < |out| :: AtLeastAsNear(transition, out[k], out[k + 1], out[m])
  {
    forall x | x in nodes ensures out != [] && StartsBefore(out[0], x) {
      StartLeMeans(out[0], x);
    }
    forall k, m | 0 <= k < m < |out| ensures AtLeastAsNear(transition, out[k], out[k + 1], out[m]) {
      NoFartherMeans(transition, out[k], out[k + 1], out[m]);
    }
  }

  method LocalOrdering(nodes: seq<StrategyNode>, transition: Transitions) returns (out: seq<StrategyNode>)
    ensures multiset(out) == multiset(nodes)
    ensures forall x | x in nodes :: out != [] && StartLe()(out[0], x)
    ensures GreedyPath(transition, out)
    ensures forall x | x in nodes :: out != [] && StartsBefore(out[0], x)
    ensures forall k, m | 0 <= k < m < |out| :: AtLeastAsNear(transition, out[k], out[k + 1], out[m])
  {
    if nodes == [] {
      return [];
    }
    var remaining := SortBy(StartLe(), nodes);
    FirstIsLeast(nodes);
    out := [remaining[0]];
    RemoveKeepsAll(nodes, [], remaining, 0);
    remaining := remaining[1..];
    ghost var start := out[0];
    while remaining != []
      invariant out != [] && out[0] == start
      invariant multiset(out + remaining) == multiset(nodes)
      invariant GreedyPath(transition, out)
      invariant forall k, x | 0 <= k < |out| - 1 && x in remaining :: NoFarther(transition, out[k], out[k + 1], x)
      decreases |remaining|
    {
      var last := out[|out| - 1];
      var idx := FindNearest(transition, last, remaining);
      var next := remaining[idx];
      PathStep(transition, out, remaining, idx);
      RemoveKeepsAll(nodes, out, remaining, idx);
      out := out + [next];
      remaining := remaining[..idx] + remaining[idx + 1..];
    }
    assert out + remaining == out;
    PathMeans(transition, nodes, out);
  }

  lemma FirstIsLeast(nodes: seq<StrategyNode>)
    requires nodes != []
    ensures forall x | x in nodes :: StartLe()(SortBy(StartLe(), nodes)[0], x)
  {
    StartLeIsTotalPreorder();
    SortBySorts(StartLe(), nodes);
    SameElements(SortBy(StartLe(), nodes), nodes);
    var sorted := SortBy(StartLe(), nodes);
    forall x | x in nodes ensures StartLe()(sorted[0], x) {
      var j :| 0 <= j < |sorted| && sorted[j] == x;
      assert StartLe()(x, x);
    }
  }

  lemma RemoveKeepsAll<T>(all: seq<T>, out: seq<T>, remaining: seq<T>, idx: nat)
    requires idx < |remaining| && multiset(out + remaining) == multiset(all)
    ensures multiset(out + [remaining[idx]] + (remaining[..idx] + remaining[idx + 1..])) == multiset(all)
  {
    assert remaining == remaining[..idx] + [remaining[idx]] + remaining[idx + 1..];
  }

  lemma PathStep(transition: Transitions, out: seq<StrategyNode>, remaining: seq<StrategyNode>, idx: nat)
    requires out != [] && idx < |remaining| && GreedyPath(transition, out)
    requires forall k, x | 0 <= k < |out| - 1 && x in remaining :: NoFarther(transition, out[k], out[k + 1], x)
    requires Nearest(transition, out[|out| - 1], remaining[idx], remaining)
    ensures var next, rest := out + [remaining[idx]], remaining[..idx] + remaining[idx + 1..];
            && GreedyPath(transition, next)
            && forall k, x | 0 <= k < |next| - 1 && x in rest :: NoFarther(transition, next[k], next[k + 1], x)
  {
    var next, rest := out + [remaining[idx]], remaining[..idx] + remaining[idx + 1..];
    assert forall x | x in rest :: x in remaining;
    forall k, m | 0 <= k < m < |next| ensures NoFarther(transition, next[k], next[k + 1], next[m]) {
      if m == |out| {
        assert next[m] in remaining;
      }
    }
  }
}
