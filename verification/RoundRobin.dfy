/** `round_robin_by_family` (src/graph.rs): taking one node of each family in turn. The proofs treat
    the sorted groups as a function `groupOf` from family to nodes. */
module RoundRobin {
  import opened Types
  import opened Text
  import opened Sorting
  import opened Counting
  import opened Nodes

  type Grouping = string -> seq<StrategyNode>

  /** The nodes of one family, in order. */
  function Members(nodes: seq<StrategyNode>, family: string): seq<StrategyNode> {
    if nodes == [] then []
    else
      var last := nodes[|nodes| - 1];
      Members(nodes[..|nodes| - 1], family) + if last.family == family then [last] else []
  }

  function GroupsOf(nodes: seq<StrategyNode>): Grouping {
    (family: string) => SortBy(NodesLe(FamilyDiversityRank), Members(nodes, family))
  }

  function FamilyLe(): (string, string) -> bool {
    (a: string, b: string) =>
      !CompareNat(FamilyDiversityRank(a), FamilyDiversityRank(b)).Then(Compare(a, b)).Greater?
  }

  /** A family is at most one behind any other unless it is exhausted. */
  ghost predicate Balanced(groupOf: Grouping, out: seq<StrategyNode>) {
    forall f, g ::
      |Members(out, f)| >= |Members(out, g)| - 1 || |Members(out, f)| == |groupOf(f)|
  }

  function FirstOf(out: seq<StrategyNode>, k: nat): seq<StrategyNode>
    requires k <= |out|
  {
    out[..k]
  }

  /** Every prefix of the output is balanced. */
  ghost predicate Fair(groupOf: Grouping, out: seq<StrategyNode>) {
    forall k: nat | k <= |out| :: Balanced(groupOf, FirstOf(out, k))
  }

  function FamiliesOf(out: seq<StrategyNode>): (r: seq<string>)
    ensures |r| == |out|
  {
    seq(|out|, i requires 0 <= i < |out| => out[i].family)
  }

  /** The round that emitted each entry: how many nodes of its family came before it. */
  function Rounds(out: seq<StrategyNode>): (r: seq<nat>)
    ensures |r| == |out|
  {
    if out == [] then []
    else
      var init, last := out[..|out| - 1], out[|out| - 1];
      Rounds(init) + [|Members(init, last.family)|]
  }

  /** Rounds follow each other, and within a round families appear once, in diversity order. */
  ghost predicate InRounds(rounds: seq<nat>, families: seq<string>)
    requires |rounds| == |families|
  {
    forall i, j | 0 <= i < j < |rounds| ::
      || rounds[i] < rounds[j]
      || (rounds[i] == rounds[j] && families[i] != families[j] && FamilyLe()(families[i], families[j]))
  }

  ghost predicate TakesPrefixes(groupOf: Grouping, out: seq<StrategyNode>) {
    forall f :: Members(out, f) <= groupOf(f)
  }

  /** What the selection promises about any number of chosen nodes. */
  ghost predicate RoundRobinOf(groupOf: Grouping, out: seq<StrategyNode>) {
    TakesPrefixes(groupOf, out) && Fair(groupOf, out) && InRounds(Rounds(out), FamiliesOf(out))
  }

  // Members and multisets

  lemma MembersAppend(nodes: seq<StrategyNode>, x: StrategyNode, f: string)
    ensures Members(nodes + [x], f) == if x.family == f then Members(nodes, f) + [x] else Members(nodes, f)
  {
    assert (nodes + [x])[..|nodes|] == nodes;
  }

  lemma {:induction false} MembersMultiplicity(nodes: seq<StrategyNode>, x: StrategyNode)
    ensures multiset(Members(nodes, x.family))[x] == multiset(nodes)[x]
  {
    if nodes != [] {
      var init, last := nodes[..|nodes| - 1], nodes[|nodes| - 1];
      MembersMultiplicity(init, x);
      assert nodes == init + [last];
      MembersAppend(init, last, x.family);
      OneMore(init, last, x);
      OneMore(Members(init, x.family), last, x);
    }
  }

  lemma OneMore(nodes: seq<StrategyNode>, last: StrategyNode, x: StrategyNode)
    ensures multiset(nodes + [last])[x] == multiset(nodes)[x] + if last == x then 1 else 0
  {
  }

  lemma {:induction false} MembersFamily(nodes: seq<StrategyNode>, f: string)
    ensures forall x | x in Members(nodes, f) :: x.family == f
  {
    if nodes != [] {
      MembersFamily(nodes[..|nodes| - 1], f);
    }
  }

  lemma GroupFamily(nodes: seq<StrategyNode>, f: string)
    ensures forall x | x in GroupsOf(nodes)(f) :: x.family == f
  {
    MembersFamily(nodes, f);
    forall x | x in GroupsOf(nodes)(f) ensures x.family == f {
      assert x in multiset(GroupsOf(nodes)(f));
      assert x in multiset(Members(nodes, f));
    }
  }

  lemma GroupFamilies(nodes: seq<StrategyNode>)
    ensures forall f, x | x in GroupsOf(nodes)(f) :: x.family == f
  {
    forall f ensures forall x | x in GroupsOf(nodes)(f) :: x.family == f {
      GroupFamily(nodes, f);
    }
  }

  lemma PrefixMultiplicity<T>(xs: seq<T>, ys: seq<T>, x: T)
    requires xs <= ys
    ensures multiset(xs)[x] <= multiset(ys)[x]
  {
    assert ys == xs + ys[|xs|..];
  }

  lemma MultiplicityFrom(nodes: seq<StrategyNode>, out: seq<StrategyNode>, x: StrategyNode)
    ensures Members(out, x.family) <= GroupsOf(nodes)(x.family) ==> multiset(out)[x] <= multiset(nodes)[x]
    ensures Members(out, x.family) == GroupsOf(nodes)(x.family) ==> multiset(out)[x] == multiset(nodes)[x]
  {
    MembersMultiplicity(out, x);
    MembersMultiplicity(nodes, x);
    if Members(out, x.family) <= GroupsOf(nodes)(x.family) {
      PrefixMultiplicity(Members(out, x.family), GroupsOf(nodes)(x.family), x);
    }
  }

  /** Prefixes of the groups come from the nodes, and are all of them when as many. */
  lemma PrefixesComeFrom(nodes: seq<StrategyNode>, out: seq<StrategyNode>)
    requires TakesPrefixes(GroupsOf(nodes), out)
    ensures multiset(out) <= multiset(nodes) && |out| <= |nodes|
    ensures |out| == |nodes| ==> multiset(out) == multiset(nodes)
  {
    forall x ensures multiset(out)[x] <= multiset(nodes)[x] {
      MultiplicityFrom(nodes, out, x);
    }
    SubMultiset(multiset(out), multiset(nodes));
  }

  lemma SubMultiset<T>(a: multiset<T>, b: multiset<T>)
    requires a <= b
    ensures |a| <= |b| && (|a| == |b| ==> a == b)
  {
    assert b == a + (b - a);
    assert |b| == |a| + |b - a|;
  }

  // One round

  /** Inside round `r`, with the first `j` families of the round served. */
  ghost predicate Served(groupOf: Grouping, order: seq<string>, out: seq<StrategyNode>, r: nat, j: nat) {
    forall i | 0 <= i < |order| ::
      |Members(out, order[i])| == Min(if i < j then r + 1 else r, |groupOf(order[i])|)
  }

  ghost predicate BeforeTurn(
    order: seq<string>, rounds: seq<nat>, families: seq<string>, r: nat, j: nat)
    requires |rounds| == |families| && j <= |order|
  {
    forall i | 0 <= i < |rounds| :: rounds[i] < r || (rounds[i] == r && families[i] in order[..j])
  }

  ghost predicate InRound(groupOf: Grouping, order: seq<string>, out: seq<StrategyNode>, r: nat, j: nat) {
    && j <= |order|
    && Served(groupOf, order, out, r, j)
    && RoundRobinOf(groupOf, out)
    && BeforeTurn(order, Rounds(out), FamiliesOf(out), r, j)
  }

  /** The families of the nodes, each once, in diversity order. */
  ghost predicate OrderOf(groupOf: Grouping, order: seq<string>) {
    && (forall i, j | 0 <= i < j < |order| :: order[i] != order[j] && FamilyLe()(order[i], order[j]))
    && (forall f | f !in order :: groupOf(f) == [])
    && (forall f, x | x in groupOf(f) :: x.family == f)
  }

  lemma {:induction false} ServePrefixes(groupOf: Grouping, out: seq<StrategyNode>, x: StrategyNode)
    requires TakesPrefixes(groupOf, out)
    requires |Members(out, x.family)| < |groupOf(x.family)| && groupOf(x.family)[|Members(out, x.family)|] == x
    ensures TakesPrefixes(groupOf, out + [x])
  {
    forall f ensures Members(out + [x], f) <= groupOf(f) {
      MembersAppend(out, x, f);
      assert Members(out, f) <= groupOf(f);
      if x.family == f {
        PrefixExtends(Members(out, f), groupOf(f), x);
      }
    }
  }

  lemma PrefixExtends<T>(xs: seq<T>, ys: seq<T>, x: T)
    requires xs <= ys && |xs| < |ys| && ys[|xs|] == x
    ensures xs + [x] <= ys
  {
  }

  lemma ServeCounts(
    groupOf: Grouping, order: seq<string>, out: seq<StrategyNode>, r: nat, j: nat, x: StrategyNode)
    requires forall a, b | 0 <= a < b < |order| :: order[a] != order[b]
    requires j < |order| && x.family == order[j] && r < |groupOf(order[j])|
    requires Served(groupOf, order, out, r, j)
    ensures Served(groupOf, order, out + [x], r, j + 1)
  {
    forall i | 0 <= i < |order|
      ensures |Members(out + [x], order[i])| == Min(if i < j + 1 then r + 1 else r, |groupOf(order[i])|)
    {
      MembersAppend(out, x, order[i]);
      assert |Members(out, order[i])| == Min(if i < j then r + 1 else r, |groupOf(order[i])|);
    }
  }

  lemma ServedIsBalanced(groupOf: Grouping, order: seq<string>, out: seq<StrategyNode>, r: nat, j: nat)
    requires OrderOf(groupOf, order) && TakesPrefixes(groupOf, out) && Served(groupOf, order, out, r, j)
    ensures Balanced(groupOf, out)
  {
    forall f, g ensures |Members(out, f)| >= |Members(out, g)| - 1 || |Members(out, f)| == |groupOf(f)| {
      TurnCount(groupOf, order, out, r, j, f);
      TurnCount(groupOf, order, out, r, j, g);
    }
  }

  /** In round `r` a family has given `r` or `r + 1` nodes, unless it ran out before. */
  lemma TurnCount(groupOf: Grouping, order: seq<string>, out: seq<StrategyNode>, r: nat, j: nat, f: string)
    requires OrderOf(groupOf, order) && TakesPrefixes(groupOf, out) && Served(groupOf, order, out, r, j)
    ensures |Members(out, f)| <= r + 1
    ensures |Members(out, f)| >= r || |Members(out, f)| == |groupOf(f)|
  {
    assert Members(out, f) <= groupOf(f);
    if f in order {
      var i :| 0 <= i < |order| && order[i] == f;
      assert |Members(out, order[i])| == Min(if i < j then r + 1 else r, |groupOf(order[i])|);
    }
  }

  lemma ServeFair(groupOf: Grouping, out: seq<StrategyNode>, x: StrategyNode)
    requires Fair(groupOf, out) && Balanced(groupOf, out + [x])
    ensures Fair(groupOf, out + [x])
  {
    var next := out + [x];
    forall k: nat | k <= |next| ensures Balanced(groupOf, FirstOf(next, k)) {
      if k <= |out| { assert FirstOf(next, k) == FirstOf(out, k); } else { assert FirstOf(next, k) == next; }
    }
  }

  lemma ServeTurn(order: seq<string>, rounds: seq<nat>, families: seq<string>, r: nat, j: nat)
    requires |rounds| == |families| && j < |order|
    requires forall a, b | 0 <= a < b < |order| :: order[a] != order[b] && FamilyLe()(order[a], order[b])
    requires InRounds(rounds, families) && BeforeTurn(order, rounds, families, r, j)
    ensures InRounds(rounds + [r], families + [order[j]])
    ensures BeforeTurn(order, rounds + [r], families + [order[j]], r, j + 1)
  {
    assert order[..j + 1] == order[..j] + [order[j]];
  }

  lemma Serve(groupOf: Grouping, order: seq<string>, out: seq<StrategyNode>, r: nat, j: nat, x: StrategyNode)
    requires OrderOf(groupOf, order) && InRound(groupOf, order, out, r, j) && j < |order|
    requires r < |groupOf(order[j])| && x == groupOf(order[j])[r] && x.family == order[j]
    ensures InRound(groupOf, order, out + [x], r, j + 1)
  {
    assert |Members(out, order[j])| == r;
    ServePrefixes(groupOf, out, x);
    ServeCounts(groupOf, order, out, r, j, x);
    ServedIsBalanced(groupOf, order, out + [x], r, j + 1);
    ServeFair(groupOf, out, x);
    ServeTurn(order, Rounds(out), FamiliesOf(out), r, j);
    RoundsAppend(out, x);
  }

  lemma RoundsAppend(out: seq<StrategyNode>, x: StrategyNode)
    ensures Rounds(out + [x]) == Rounds(out) + [|Members(out, x.family)|]
    ensures FamiliesOf(out + [x]) == FamiliesOf(out) + [x.family]
  {
    assert (out + [x])[..|out|] == out;
  }

  lemma Skip(groupOf: Grouping, order: seq<string>, out: seq<StrategyNode>, r: nat, j: nat)
    requires InRound(groupOf, order, out, r, j) && j < |order| && |groupOf(order[j])| <= r
    ensures InRound(groupOf, order, out, r, j + 1)
  {
    forall i | 0 <= i < |order|
      ensures |Members(out, order[i])| == Min(if i < j + 1 then r + 1 else r, |groupOf(order[i])|)
    {
      assert |Members(out, order[i])| == Min(if i < j then r + 1 else r, |groupOf(order[i])|);
    }
    SkipTurn(order, Rounds(out), FamiliesOf(out), r, j);
  }

  lemma SkipTurn(order: seq<string>, rounds: seq<nat>, families: seq<string>, r: nat, j: nat)
    requires |rounds| == |families| && j < |order| && BeforeTurn(order, rounds, families, r, j)
    ensures BeforeTurn(order, rounds, families, r, j + 1)
  {
    assert order[..j + 1] == order[..j] + [order[j]];
  }

  lemma NextRound(groupOf: Grouping, order: seq<string>, out: seq<StrategyNode>, r: nat)
    requires InRound(groupOf, order, out, r, |order|)
    ensures InRound(groupOf, order, out, r + 1, 0)
  {
    forall i | 0 <= i < |order|
      ensures |Members(out, order[i])| == Min(r + 1, |groupOf(order[i])|)
    {
      assert |Members(out, order[i])| == Min(r + 1, |groupOf(order[i])|);
    }
  }

  /** The first `j` families have no node left for round `r`. */
  ghost predicate Exhausted(groupOf: Grouping, order: seq<string>, r: nat, j: nat) {
    forall i | 0 <= i < |order| && i < j :: |groupOf(order[i])| <= r
  }

  lemma ExhaustedStep(groupOf: Grouping, order: seq<string>, r: nat, j: nat)
    requires Exhausted(groupOf, order, r, j) && j < |order| && |groupOf(order[j])| <= r
    ensures Exhausted(groupOf, order, r, j + 1)
  {
  }

  ghost predicate Emptied(groupOf: Grouping, out: seq<StrategyNode>) {
    forall f :: Members(out, f) == groupOf(f)
  }

  /** When a round serves nobody every group has been emptied. */
  lemma AllServed(groupOf: Grouping, order: seq<string>, out: seq<StrategyNode>, r: nat)
    requires OrderOf(groupOf, order) && InRound(groupOf, order, out, r, |order|)
    requires Exhausted(groupOf, order, r, |order|)
    ensures Emptied(groupOf, out)
  {
    forall f ensures Members(out, f) == groupOf(f) {
      assert Members(out, f) <= groupOf(f);
      TurnCount(groupOf, order, out, r, |order|, f);
      if f in order {
        var i :| 0 <= i < |order| && order[i] == f;
        assert |Members(out, order[i])| == Min(r + 1, |groupOf(order[i])|);
      }
    }
  }

  lemma EmptiedGroups(nodes: seq<StrategyNode>, out: seq<StrategyNode>)
    requires Emptied(GroupsOf(nodes), out)
    ensures multiset(out) == multiset(nodes) && |out| == |nodes|
  {
    assert multiset(out) == multiset(nodes) by {
      forall x ensures multiset(out)[x] == multiset(nodes)[x] {
        MultiplicityFrom(nodes, out, x);
      }
    }
    SameElements(out, nodes);
  }

  // Grouping

  lemma FamilyLeLaws()
    ensures TotalPreorder(FamilyLe())
  {
    var le := FamilyLe();
    forall a, b ensures le(a, b) || le(b, a) {
      CompareLaws(a, b);
      CompareLaws(b, a);
    }
    forall a, b, c | le(a, b) && le(b, c) ensures le(a, c) {
      CompareLaws(a, b);
      CompareLaws(b, c);
      if FamilyDiversityRank(a) == FamilyDiversityRank(b) == FamilyDiversityRank(c) {
        CompareTransitive(a, b, c);
      }
    }
  }

  type Groups = map<string, seq<StrategyNode>>

  function GroupIn(groups: Groups, f: string): seq<StrategyNode> {
    if f in groups then groups[f] else []
  }

  ghost predicate Distinct<T>(xs: seq<T>) {
    forall i, j | 0 <= i < j < |xs| :: xs[i] != xs[j]
  }

  lemma GroupOne(groups: Groups, nodes: seq<StrategyNode>, node: StrategyNode)
    requires forall f :: GroupIn(groups, f) == Members(nodes, f)
    ensures forall f ::
              GroupIn(groups[node.family := GroupIn(groups, node.family) + [node]], f) == Members(nodes + [node], f)
  {
    forall f
      ensures GroupIn(groups[node.family := GroupIn(groups, node.family) + [node]], f) == Members(nodes + [node], f)
    {
      MembersAppend(nodes, node, f);
      assert GroupIn(groups, f) == Members(nodes, f);
    }
  }

  /** Groups nodes by family, noting each family at its first node. */
  method GroupByFamily(nodes: seq<StrategyNode>) returns (order: seq<string>, groups: Groups)
    ensures Distinct(order)
    ensures forall f :: f in order <==> f in groups
    ensures forall f :: GroupIn(groups, f) == Members(nodes, f)
  {
    order, groups := [], map[];
    for i := 0 to |nodes|
      invariant Distinct(order)
      invariant forall f :: f in order <==> f in groups
      invariant forall f :: GroupIn(groups, f) == Members(nodes[..i], f)
    {
      var node := nodes[i];
      assert nodes[..i + 1] == nodes[..i] + [node];
      GroupOne(groups, nodes[..i], node);
      if node.family !in groups {
        order := order + [node.family];
      }
      groups := groups[node.family := GroupIn(groups, node.family) + [node]];
    }
    assert nodes[..|nodes|] == nodes;
  }

  lemma {:induction false} OnceEach<T>(xs: seq<T>, x: T)
    requires Distinct(xs)
    ensures multiset(xs)[x] <= 1
  {
    if xs != [] {
      var n := |xs| - 1;
      OnceEach(xs[..n], x);
      assert xs == xs[..n] + [xs[n]];
      if xs[n] == x {
        assert x !in multiset(xs[..n]);
      }
    }
  }

  lemma DistinctPermutation<T>(xs: seq<T>, ys: seq<T>)
    requires multiset(xs) == multiset(ys) && Distinct(xs)
    ensures Distinct(ys)
  {
    forall i, j | 0 <= i < j < |ys| ensures ys[i] != ys[j] {
      if ys[i] == ys[j] {
        assert ys == ys[..i] + [ys[i]] + ys[i + 1..j] + [ys[j]] + ys[j + 1..];
        OnceEach(xs, ys[i]);
      }
    }
  }

  lemma SortedOrder(unsorted: seq<string>)
    requires Distinct(unsorted)
    ensures var order := SortBy(FamilyLe(), unsorted);
            && (forall i, j | 0 <= i < j < |order| :: order[i] != order[j] && FamilyLe()(order[i], order[j]))
            && (forall f :: f in order <==> f in unsorted)
  {
    FamilyLeLaws();
    SortBySorts(FamilyLe(), unsorted);
    SameElements(SortBy(FamilyLe(), unsorted), unsorted);
    DistinctPermutation(unsorted, SortBy(FamilyLe(), unsorted));
  }

  lemma NothingServed(groupOf: Grouping, order: seq<string>)
    ensures InRound(groupOf, order, [], 0, 0)
  {
  }

  // The selection

  /** `groups` still holds, for every family, what has not been selected. */
  ghost predicate Remaining(groupOf: Grouping, order: seq<string>, groups: Groups, selected: seq<StrategyNode>) {
    forall f | f in order ::
      && f in groups
      && |Members(selected, f)| <= |groupOf(f)|
      && groups[f] == groupOf(f)[|Members(selected, f)|..]
  }

  /** The loop state inside round `r`, before the turn of family `j`. */
  ghost predicate Turn(
    groupOf: Grouping, order: seq<string>, groups: Groups, out: seq<StrategyNode>, r: nat, j: nat)
  {
    InRound(groupOf, order, out, r, j) && Remaining(groupOf, order, groups, out)
  }

  lemma TakeOne(
    groupOf: Grouping, order: seq<string>, groups: Groups, selected: seq<StrategyNode>, f: string, x: StrategyNode)
    requires Remaining(groupOf, order, groups, selected) && f in order && x.family == f
    requires groups[f] != [] && groups[f][0] == x
    ensures Remaining(groupOf, order, groups[f := groups[f][1..]], selected + [x])
  {
    forall g | g in order
      ensures |Members(selected + [x], g)| <= |groupOf(g)|
      ensures groups[f := groups[f][1..]][g] == groupOf(g)[|Members(selected + [x], g)|..]
    {
      MembersAppend(selected, x, g);
      assert groups[g] == groupOf(g)[|Members(selected, g)|..];
    }
  }

  lemma TakeTurn(
    groupOf: Grouping, order: seq<string>, groups: Groups, out: seq<StrategyNode>, r: nat, j: nat)
    requires OrderOf(groupOf, order) && Turn(groupOf, order, groups, out, r, j) && j < |order|
    ensures order[j] in groups
    ensures groups[order[j]] == [] ==> Turn(groupOf, order, groups, out, r, j + 1) && |groupOf(order[j])| <= r
    ensures groups[order[j]] != [] ==>
              Turn(groupOf, order, groups[order[j] := groups[order[j]][1..]], out + [groups[order[j]][0]], r, j + 1)
  {
    var family := order[j];
    assert family in order;
    assert |Members(out, order[j])| == Min(r, |groupOf(order[j])|);
    if groups[family] == [] {
      Skip(groupOf, order, out, r, j);
    } else {
      var x := groups[family][0];
      assert x == groupOf(family)[r];
      Serve(groupOf, order, out, r, j, x);
      TakeOne(groupOf, order, groups, out, family, x);
    }
  }

  /** One pass over the families, up to the turn `reached`: all of them, unless the candidate limit
      was met on the way. */
  method ServeRound(
    ghost groupOf: Grouping, order: seq<string>, groups: Groups, selected: seq<StrategyNode>,
    maxCandidates: nat, ghost r: nat)
    returns (groups': Groups, selected': seq<StrategyNode>, progress: bool, reached: nat)
    requires OrderOf(groupOf, order) && Turn(groupOf, order, groups, selected, r, 0)
    requires |selected| <= maxCandidates
    ensures Turn(groupOf, order, groups', selected', r, reached)
    ensures |selected| <= |selected'| <= maxCandidates && (progress <==> |selected| < |selected'|)
    ensures reached < |order| ==> |selected'| == maxCandidates
    ensures !progress ==> Exhausted(groupOf, order, r, reached)
  {
    groups', selected', progress, reached := groups, selected, false, 0;
    while reached < |order|
      invariant Turn(groupOf, order, groups', selected', r, reached)
      invariant |selected| <= |selected'| <= maxCandidates && (progress <==> |selected| < |selected'|)
      invariant !progress ==> Exhausted(groupOf, order, r, reached)
    {
      if |selected'| >= maxCandidates {
        return;
      }
      var served;
      groups', selected', served := ServeFamily(groupOf, order, groups', selected', r, reached);
      if !progress && !served {
        ExhaustedStep(groupOf, order, r, reached);
      }
      progress := progress || served;
      reached := reached + 1;
    }
  }

  /** The turn of one family: its next node, unless its group is empty. */
  method ServeFamily(
    ghost groupOf: Grouping, order: seq<string>, groups: Groups, selected: seq<StrategyNode>, ghost r: nat, j: nat)
    returns (groups': Groups, selected': seq<StrategyNode>, served: bool)
    requires OrderOf(groupOf, order) && Turn(groupOf, order, groups, selected, r, j) && j < |order|
    ensures Turn(groupOf, order, groups', selected', r, j + 1)
    ensures |selected'| == |selected| + if served then 1 else 0
    ensures !served ==> |groupOf(order[j])| <= r
  {
    TakeTurn(groupOf, order, groups, selected, r, j);
    var family := order[j];
    if groups[family] == [] {
      return groups, selected, false;
    }
    return groups[family := groups[family][1..]], selected + [groups[family][0]], true;
  }

  /** The rounds, until the limit is met or a round serves nobody. */
  method ServeRounds(ghost groupOf: Grouping, order: seq<string>, initial: Groups, maxCandidates: nat)
    returns (selected: seq<StrategyNode>)
    requires OrderOf(groupOf, order) && Remaining(groupOf, order, initial, [])
    ensures RoundRobinOf(groupOf, selected)
    ensures |selected| == maxCandidates || (|selected| < maxCandidates && Emptied(groupOf, selected))
  {
    var groups := initial;
    selected := [];
    NothingServed(groupOf, order);
    ghost var r := 0;
    while true
      invariant Turn(groupOf, order, groups, selected, r, 0) && |selected| <= maxCandidates
      decreases maxCandidates - |selected|
    {
      var progress, reached;
      groups, selected, progress, reached := ServeRound(groupOf, order, groups, selected, maxCandidates, r);
      if reached < |order| {
        return;
      }
      if !progress {
        AllServed(groupOf, order, selected, r);
        return;
      }
      NextRound(groupOf, order, selected, r);
      r := r + 1;
    }
  }

  /** The families in diversity order, and each group sorted by quality. */
  method PrepareGroups(nodes: seq<StrategyNode>) returns (order: seq<string>, groups: Groups)
    ensures OrderOf(GroupsOf(nodes), order)
    ensures Remaining(GroupsOf(nodes), order, groups, [])
  {
    var unsorted, raw := GroupByFamily(nodes);
    order := SortBy(FamilyLe(), unsorted);
    SortedOrder(unsorted);
    GroupFamilies(nodes);
    groups := map f | f in raw :: SortBy(NodesLe(FamilyDiversityRank), raw[f]);
    forall f ensures f in order ==> groups[f] == GroupsOf(nodes)(f)
             ensures f !in order ==> GroupsOf(nodes)(f) == [] {
      assert GroupIn(raw, f) == Members(nodes, f);
    }
  }

  // The order of the output, field by field

  /** How many nodes of its family come before entry `i`. */
  function RoundOf(out: seq<StrategyNode>, i: nat): nat
    requires i < |out|
  {
    |Members(FirstOf(out, i), out[i].family)|
  }

  /** Round after round, and within a round each family once, in diversity order and then by name. */
  ghost predicate InDiversityOrder(out: seq<StrategyNode>) {
    forall i, j | 0 <= i < j < |out| ::
      && RoundOf(out, i) <= RoundOf(out, j)
      && (RoundOf(out, i) == RoundOf(out, j) ==>
            && out[i].family != out[j].family
            && FamilyDiversityRank(out[i].family) <= FamilyDiversityRank(out[j].family)
            && (FamilyDiversityRank(out[i].family) == FamilyDiversityRank(out[j].family) ==>
                  NotAfter(out[i].family, out[j].family)))
  }

  /** Within a family the nodes come in quality order, and no node that is left out precedes one. */
  ghost predicate BestFirst(nodes: seq<StrategyNode>, out: seq<StrategyNode>) {
    && (forall i, j | 0 <= i < j < |out| && out[i].family == out[j].family ::
          Precedes(FamilyDiversityRank, out[i], out[j]))
    && (forall i, x: StrategyNode | 0 <= i < |out| && x.family == out[i].family && multiset(out)[x] < multiset(nodes)[x] ::
          Precedes(FamilyDiversityRank, out[i], x))
  }

  lemma {:induction false} RoundAt(out: seq<StrategyNode>, i: nat)
    requires i < |out|
    ensures Rounds(out)[i] == RoundOf(out, i)
  {
    var n := |out| - 1;
    if i < n {
      RoundAt(out[..n], i);
      assert out[..n][..i] == out[..i];
    }
  }

  lemma {:induction false} MembersGrow(out: seq<StrategyNode>, k: nat, f: string)
    requires k <= |out|
    ensures Members(FirstOf(out, k), f) <= Members(out, f)
  {
    var n := |out| - 1;
    if k <= n {
      MembersGrow(out[..n], k, f);
      assert out[..n][..k] == out[..k];
    } else {
      assert out[..k] == out;
    }
  }

  /** An entry is the next member of its family at its turn. */
  lemma MemberAt(out: seq<StrategyNode>, i: nat)
    requires i < |out|
    ensures RoundOf(out, i) < |Members(out, out[i].family)| && Members(out, out[i].family)[RoundOf(out, i)] == out[i]
  {
    MembersAppend(FirstOf(out, i), out[i], out[i].family);
    assert FirstOf(out, i + 1) == FirstOf(out, i) + [out[i]];
    MembersGrow(out, i + 1, out[i].family);
  }

  lemma LaterRound(out: seq<StrategyNode>, i: nat, j: nat)
    requires i < j < |out| && out[i].family == out[j].family
    ensures RoundOf(out, i) < RoundOf(out, j)
  {
    var earlier := FirstOf(out, j);
    assert FirstOf(earlier, i) == FirstOf(out, i) && earlier[i] == out[i];
    MemberAt(earlier, i);
  }

  lemma RoundsInOrder(groupOf: Grouping, out: seq<StrategyNode>)
    requires RoundRobinOf(groupOf, out)
    ensures InDiversityOrder(out)
  {
    forall i, j | 0 <= i < j < |out|
      ensures RoundOf(out, i) < RoundOf(out, j)
              || (&& RoundOf(out, i) == RoundOf(out, j) && out[i].family != out[j].family
                  && FamilyLe()(out[i].family, out[j].family))
    {
      RoundAt(out, i);
      RoundAt(out, j);
      assert FamiliesOf(out)[i] == out[i].family && FamiliesOf(out)[j] == out[j].family;
    }
    forall f, g ensures FamilyLe()(f, g) ==>
                          && FamilyDiversityRank(f) <= FamilyDiversityRank(g)
                          && (FamilyDiversityRank(f) == FamilyDiversityRank(g) ==> NotAfter(f, g))
    {
      CompareIsLexicographic(f, g);
    }
  }

  /** The members of a family in the output are the first of its sorted group. */
  lemma GroupIsSorted(nodes: seq<StrategyNode>, f: string, i: nat, j: nat)
    requires i < j < |GroupsOf(nodes)(f)|
    ensures Precedes(FamilyDiversityRank, GroupsOf(nodes)(f)[i], GroupsOf(nodes)(f)[j])
  {
    var le := NodesLe(FamilyDiversityRank);
    NodesLeIsTotalPreorder(FamilyDiversityRank);
    SortBySorts(le, Members(nodes, f));
    assert le(GroupsOf(nodes)(f)[i], GroupsOf(nodes)(f)[j]);
    NodesLeMeans(FamilyDiversityRank, GroupsOf(nodes)(f)[i], GroupsOf(nodes)(f)[j]);
  }

  lemma FamilyInOrder(nodes: seq<StrategyNode>, out: seq<StrategyNode>, i: nat, j: nat)
    requires TakesPrefixes(GroupsOf(nodes), out) && i < j < |out| && out[i].family == out[j].family
    ensures Precedes(FamilyDiversityRank, out[i], out[j])
  {
    var f := out[i].family;
    MemberAt(out, i);
    MemberAt(out, j);
    LaterRound(out, i, j);
    assert Members(out, f) <= GroupsOf(nodes)(f);
    GroupIsSorted(nodes, f, RoundOf(out, i), RoundOf(out, j));
  }

  /** A node that occurs more often in a list than in a prefix of it occurs behind the prefix. */
  lemma OccursBehind<T>(xs: seq<T>, ys: seq<T>, x: T) returns (k: nat)
    requires xs <= ys && multiset(xs)[x] < multiset(ys)[x]
    ensures |xs| <= k < |ys| && ys[k] == x
  {
    assert ys == xs + ys[|xs|..];
    assert x in multiset(ys[|xs|..]);
    var m: nat :| m < |ys[|xs|..]| && ys[|xs|..][m] == x;
    k := |xs| + m;
  }

  lemma LeftOutComesLater(nodes: seq<StrategyNode>, out: seq<StrategyNode>, i: nat, x: StrategyNode)
    requires TakesPrefixes(GroupsOf(nodes), out) && i < |out| && x.family == out[i].family
    requires multiset(out)[x] < multiset(nodes)[x]
    ensures Precedes(FamilyDiversityRank, out[i], x)
  {
    var f := x.family;
    MembersMultiplicity(out, x);
    MembersMultiplicity(nodes, x);
    assert Members(out, f) <= GroupsOf(nodes)(f);
    var k := OccursBehind(Members(out, f), GroupsOf(nodes)(f), x);
    MemberAt(out, i);
    GroupIsSorted(nodes, f, RoundOf(out, i), k);
  }

  lemma FamiliesAreBestFirst(nodes: seq<StrategyNode>, out: seq<StrategyNode>)
    requires TakesPrefixes(GroupsOf(nodes), out)
    ensures BestFirst(nodes, out)
  {
    forall i, j | 0 <= i < j < |out| && out[i].family == out[j].family
      ensures Precedes(FamilyDiversityRank, out[i], out[j])
    {
      FamilyInOrder(nodes, out, i, j);
    }
    forall i, x: StrategyNode | 0 <= i < |out| && x.family == out[i].family && multiset(out)[x] < multiset(nodes)[x]
      ensures Precedes(FamilyDiversityRank, out[i], x)
    {
      LeftOutComesLater(nodes, out, i, x);
    }
  }

  method RoundRobinByFamily(nodes: seq<StrategyNode>, maxCandidates: nat) returns (selected: seq<StrategyNode>)
    ensures |selected| == Min(maxCandidates, |nodes|)
    ensures RoundRobinOf(GroupsOf(nodes), selected)
    ensures multiset(selected) <= multiset(nodes)
    ensures |selected| == |nodes| ==> multiset(selected) == multiset(nodes)
    ensures InDiversityOrder(selected) && BestFirst(nodes, selected)
  {
    var order, groups := PrepareGroups(nodes);
    selected := ServeRounds(GroupsOf(nodes), order, groups, maxCandidates);
    PrefixesComeFrom(nodes, selected);
    RoundsInOrder(GroupsOf(nodes), selected);
    FamiliesAreBestFirst(nodes, selected);
    if |selected| < maxCandidates {
      EmptiedGroups(nodes, selected);
    }
  }
}
