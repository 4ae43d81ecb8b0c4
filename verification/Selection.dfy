/** Candidate selection (src/graph.rs): the greedy filter under family and action caps, and the
    renumbering of what was selected. */
module Selection {
  import opened Types
  import opened Text
  import opened Sorting
  import opened Counting
  import opened Nodes
  import opened RoundRobin

  function InFamily(family: string): StrategyNode -> bool {
    (node: StrategyNode) => node.family == family
  }

  function InAction(family: string, actionId: string): StrategyNode -> bool {
    (node: StrategyNode) => node.family == family && node.actionId == actionId
  }

  predicate HasKey(nodes: seq<StrategyNode>, key: string) {
    exists j | 0 <= j < |nodes| :: ArgsKey(nodes[j]) == key
  }

  predicate Repeats(earlier: seq<StrategyNode>, node: StrategyNode) {
    HasKey(earlier, ArgsKey(node))
  }

  datatype Caps = Caps(perFamily: nat, perAction: nat)

  /** A node passes when no earlier node, kept or not, has its key, and its family and its action
      are below their caps among the nodes kept before it. */
  predicate Passes(earlier: seq<StrategyNode>, kept: seq<StrategyNode>, node: StrategyNode, caps: Caps) {
    && !Repeats(earlier, node)
    && Count(kept, InFamily(node.family)) < caps.perFamily
    && Count(kept, InAction(node.family, node.actionId)) < caps.perAction
  }

  function Kept(nodes: seq<StrategyNode>, caps: Caps): seq<StrategyNode> {
    if nodes == [] then []
    else
      var earlier, node := nodes[..|nodes| - 1], nodes[|nodes| - 1];
      var kept := Kept(earlier, caps);
      if Passes(earlier, kept, node, caps) then kept + [node] else kept
  }

  lemma KeptStep(earlier: seq<StrategyNode>, node: StrategyNode, caps: Caps)
    ensures Kept(earlier + [node], caps)
         == if Passes(earlier, Kept(earlier, caps), node, caps) then Kept(earlier, caps) + [node] else Kept(earlier, caps)
  {
    assert (earlier + [node])[..|earlier|] == earlier;
  }

  function Lookup<K>(m: map<K, nat>, k: K): nat { if k in m then m[k] else 0 }

  lemma HasKeyAppend(nodes: seq<StrategyNode>, node: StrategyNode, key: string)
    ensures HasKey(nodes + [node], key) <==> HasKey(nodes, key) || key == ArgsKey(node)
  {
    var next := nodes + [node];
    assert next[|nodes|] == node;
    if HasKey(nodes, key) {
      var j :| 0 <= j < |nodes| && ArgsKey(nodes[j]) == key;
      assert next[j] == nodes[j];
    }
  }

  /** `seen` holds exactly the keys of the nodes passed so far. */
  ghost predicate SeenKeys(seen: set<string>, nodes: seq<StrategyNode>) {
    forall k :: k in seen <==> HasKey(nodes, k)
  }

  lemma SeeOne(seen: set<string>, nodes: seq<StrategyNode>, node: StrategyNode)
    requires SeenKeys(seen, nodes)
    ensures SeenKeys(seen + {ArgsKey(node)}, nodes + [node])
  {
    forall k ensures k in seen + {ArgsKey(node)} <==> HasKey(nodes + [node], k) {
      HasKeyAppend(nodes, node, k);
    }
  }

  ghost predicate CountsOf(
    perFamily: map<string, nat>, perAction: map<(string, string), nat>, kept: seq<StrategyNode>)
  {
    && (forall f :: Lookup(perFamily, f) == Count(kept, InFamily(f)))
    && (forall f, a :: Lookup(perAction, (f, a)) == Count(kept, InAction(f, a)))
  }

  lemma CountOne(
    perFamily: map<string, nat>, perAction: map<(string, string), nat>, kept: seq<StrategyNode>, node: StrategyNode)
    requires CountsOf(perFamily, perAction, kept)
    ensures var action := (node.family, node.actionId);
            CountsOf(perFamily[node.family := Lookup(perFamily, node.family) + 1],
                     perAction[action := Lookup(perAction, action) + 1], kept + [node])
  {
    CountsAppend(kept, node);
  }

  /** The loop state of the filter pass after `passed`. */
  ghost predicate FilterState(
    passed: seq<StrategyNode>, caps: Caps, seen: set<string>, perFamily: map<string, nat>,
    perAction: map<(string, string), nat>, filtered: seq<StrategyNode>)
  {
    SeenKeys(seen, passed) && CountsOf(perFamily, perAction, filtered) && filtered == Kept(passed, caps)
  }

  lemma FilterOne(
    passed: seq<StrategyNode>, node: StrategyNode, caps: Caps, seen: set<string>, perFamily: map<string, nat>,
    perAction: map<(string, string), nat>, filtered: seq<StrategyNode>)
    requires FilterState(passed, caps, seen, perFamily, perAction, filtered)
    ensures var action, next, seen' := (node.family, node.actionId), passed + [node], seen + {ArgsKey(node)};
            var f, a := Lookup(perFamily, node.family), Lookup(perAction, action);
            if ArgsKey(node) in seen then FilterState(next, caps, seen, perFamily, perAction, filtered)
            else if f >= caps.perFamily || a >= caps.perAction then
              FilterState(next, caps, seen', perFamily, perAction, filtered)
            else FilterState(next, caps, seen', perFamily[node.family := f + 1], perAction[action := a + 1], filtered + [node])
  {
    SeeOne(seen, passed, node);
    KeptStep(passed, node, caps);
    CountOne(perFamily, perAction, filtered, node);
    if ArgsKey(node) in seen {
      assert seen + {ArgsKey(node)} == seen;
    }
  }

  /** The filter pass of `select_diverse_nodes`, with its set of seen keys and its two counters. */
  method GreedyFilter(nodes: seq<StrategyNode>, caps: Caps) returns (filtered: seq<StrategyNode>)
    ensures filtered == Kept(nodes, caps)
  {
    var seen: set<string> := {};
    var perFamily: map<string, nat> := map[];
    var perAction: map<(string, string), nat> := map[];
    filtered := [];
    FilterStart(caps);
    for i := 0 to |nodes|
      invariant FilterState(nodes[..i], caps, seen, perFamily, perAction, filtered)
    {
      assert nodes[..i + 1] == nodes[..i] + [nodes[i]];
      seen, perFamily, perAction, filtered :=
        FilterNode(nodes[..i], nodes[i], caps, seen, perFamily, perAction, filtered);
    }
    assert nodes[..|nodes|] == nodes;
  }

  lemma FilterStart(caps: Caps)
    ensures FilterState([], caps, {}, map[], map[], [])
  {
  }

  /** The loop body: skips a node whose key has been seen or whose family or action is at its cap. */
  method FilterNode(
    ghost passed: seq<StrategyNode>, node: StrategyNode, caps: Caps, seen: set<string>, perFamily: map<string, nat>,
    perAction: map<(string, string), nat>, filtered: seq<StrategyNode>)
    returns (seen': set<string>, perFamily': map<string, nat>, perAction': map<(string, string), nat>,
             filtered': seq<StrategyNode>)
    requires FilterState(passed, caps, seen, perFamily, perAction, filtered)
    ensures FilterState(passed + [node], caps, seen', perFamily', perAction', filtered')
  {
    FilterOne(passed, node, caps, seen, perFamily, perAction, filtered);
    var key, action := ArgsKey(node), (node.family, node.actionId);
    if key in seen {
      return seen, perFamily, perAction, filtered;
    }
    var familyCount, actionCount := Lookup(perFamily, node.family), Lookup(perAction, action);
    if familyCount >= caps.perFamily || actionCount >= caps.perAction {
      return seen + {key}, perFamily, perAction, filtered;
    }
    return seen + {key}, perFamily[node.family := familyCount + 1], perAction[action := actionCount + 1],
           filtered + [node];
  }

  lemma CountsAppend(nodes: seq<StrategyNode>, node: StrategyNode)
    ensures forall f :: Count(nodes + [node], InFamily(f)) == Count(nodes, InFamily(f)) + if node.family == f then 1 else 0
    ensures forall f, a :: Count(nodes + [node], InAction(f, a))
                        == Count(nodes, InAction(f, a)) + if node.family == f && node.actionId == a then 1 else 0
  {
    forall f ensures Count(nodes + [node], InFamily(f)) == Count(nodes, InFamily(f)) + if node.family == f then 1 else 0 {
      CountAppend(nodes, node, InFamily(f));
    }
    forall f, a ensures Count(nodes + [node], InAction(f, a))
                     == Count(nodes, InAction(f, a)) + if node.family == f && node.actionId == a then 1 else 0 {
      CountAppend(nodes, node, InAction(f, a));
    }
  }

  ghost predicate DistinctKeys(nodes: seq<StrategyNode>) {
    forall i, j | 0 <= i < j < |nodes| :: ArgsKey(nodes[i]) != ArgsKey(nodes[j])
  }

  ghost predicate DistinctIds(nodes: seq<StrategyNode>) {
    forall i, j | 0 <= i < j < |nodes| :: nodes[i].id != nodes[j].id
  }

  ghost predicate WithinCaps(nodes: seq<StrategyNode>, caps: Caps) {
    && (forall f :: Count(nodes, InFamily(f)) <= caps.perFamily)
    && (forall f, a :: Count(nodes, InAction(f, a)) <= caps.perAction)
  }

  lemma {:induction false} KeptComesFrom(nodes: seq<StrategyNode>, caps: Caps)
    ensures multiset(Kept(nodes, caps)) <= multiset(nodes)
  {
    if nodes != [] {
      KeptComesFrom(nodes[..|nodes| - 1], caps);
      assert nodes == nodes[..|nodes| - 1] + [nodes[|nodes| - 1]];
    }
  }

  /** What is kept respects both caps and repeats no key. */
  lemma {:induction false} KeptIsWithinCaps(nodes: seq<StrategyNode>, caps: Caps)
    ensures WithinCaps(Kept(nodes, caps), caps) && DistinctKeys(Kept(nodes, caps))
  {
    if nodes != [] {
      var earlier, node := nodes[..|nodes| - 1], nodes[|nodes| - 1];
      var kept := Kept(earlier, caps);
      KeptIsWithinCaps(earlier, caps);
      if Passes(earlier, kept, node, caps) {
        PassKeepsCaps(earlier, kept, node, caps);
        PassKeepsKeys(earlier, node, caps);
      }
    }
  }

  lemma PassKeepsCaps(earlier: seq<StrategyNode>, kept: seq<StrategyNode>, node: StrategyNode, caps: Caps)
    requires WithinCaps(kept, caps) && Passes(earlier, kept, node, caps)
    ensures WithinCaps(kept + [node], caps)
  {
    CountsAppend(kept, node);
  }

  lemma PassKeepsKeys(earlier: seq<StrategyNode>, node: StrategyNode, caps: Caps)
    requires DistinctKeys(Kept(earlier, caps)) && !Repeats(earlier, node)
    ensures DistinctKeys(Kept(earlier, caps) + [node])
  {
    var kept := Kept(earlier, caps);
    KeptComesFrom(earlier, caps);
    forall i | 0 <= i < |kept| ensures ArgsKey(kept[i]) != ArgsKey(node) {
      assert kept[i] in multiset(kept);
      assert kept[i] in multiset(earlier);
      assert kept[i] in earlier;
    }
  }

  lemma {:induction false} KeptGrows(nodes: seq<StrategyNode>, caps: Caps, i: nat)
    requires i <= |nodes|
    ensures Kept(nodes[..i], caps) <= Kept(nodes, caps)
  {
    if i == |nodes| {
      assert nodes[..i] == nodes;
    } else {
      KeptGrows(nodes[..|nodes| - 1], caps, i);
      assert nodes[..|nodes| - 1][..i] == nodes[..i];
    }
  }

  /** Every node is kept, or repeats the key of an earlier node, or finds its family or its action
      at its cap already when the pass comes to it. */
  lemma DroppedIsJustified(nodes: seq<StrategyNode>, caps: Caps, i: nat)
    requires i < |nodes|
    ensures var before := Kept(nodes[..i], caps);
            || nodes[i] in Kept(nodes, caps)
            || Repeats(nodes[..i], nodes[i])
            || Count(before, InFamily(nodes[i].family)) == caps.perFamily
            || Count(before, InAction(nodes[i].family, nodes[i].actionId)) == caps.perAction
  {
    var before := Kept(nodes[..i], caps);
    KeptIsWithinCaps(nodes[..i], caps);
    if Passes(nodes[..i], before, nodes[i], caps) {
      KeptAt(nodes, caps, i);
    }
  }

  /** What passes at its turn is in the final selection. */
  lemma {:induction false} KeptAt(nodes: seq<StrategyNode>, caps: Caps, i: nat)
    requires i < |nodes| && Passes(nodes[..i], Kept(nodes[..i], caps), nodes[i], caps)
    ensures nodes[i] in Kept(nodes, caps)
  {
    KeptGrows(nodes, caps, i + 1);
    assert nodes[..i + 1] == nodes[..i] + [nodes[i]];
    KeptStep(nodes[..i], nodes[i], caps);
    LastOfPrefix(Kept(nodes[..i], caps), nodes[i], Kept(nodes, caps));
  }

  lemma LastOfPrefix<T>(xs: seq<T>, x: T, ys: seq<T>)
    requires xs + [x] <= ys
    ensures x in ys
  {
    assert ys[|xs|] == (xs + [x])[|xs|];
  }

  lemma CountOfPrefix<T>(xs: seq<T>, ys: seq<T>, p: T -> bool)
    requires xs <= ys
    ensures Count(xs, p) <= Count(ys, p)
  {
    assert ys == xs + ys[|xs|..];
    CountMonotone(xs, ys, p);
  }

  /** The nodes whose key occurs nowhere before them. */
  function FirstOccurrences(nodes: seq<StrategyNode>): seq<StrategyNode> {
    if nodes == [] then []
    else
      var earlier, node := nodes[..|nodes| - 1], nodes[|nodes| - 1];
      FirstOccurrences(earlier) + if Repeats(earlier, node) then [] else [node]
  }

  /** With caps too high to matter the filter is exactly first-occurrence deduplication. */
  lemma {:induction false} UnlimitedKeepsFirstOccurrences(nodes: seq<StrategyNode>, caps: Caps)
    requires caps.perFamily >= |nodes| && caps.perAction >= |nodes|
    ensures Kept(nodes, caps) == FirstOccurrences(nodes)
    ensures |Kept(nodes, caps)| <= |nodes|
  {
    if nodes != [] {
      var earlier, node := nodes[..|nodes| - 1], nodes[|nodes| - 1];
      UnlimitedKeepsFirstOccurrences(earlier, caps);
      CountAtMostLength(Kept(earlier, caps), InFamily(node.family));
      CountAtMostLength(Kept(earlier, caps), InAction(node.family, node.actionId));
    }
  }

  // Renumbering

  function NewId(protocolKey: string, node: StrategyNode, i: nat): string {
    (if node.isCombined then protocolKey + "_" + node.family
     else protocolKey + "_" + node.family + "_" + node.actionId) + "_" + RenderNat(i)
  }

  /** `reindex_nodes`. */
  function Reindexed(protocolKey: string, nodes: seq<StrategyNode>): (out: seq<StrategyNode>)
    ensures |out| == |nodes|
    ensures forall i | 0 <= i < |out| :: out[i].args == nodes[i].args && out[i].id == NewId(protocolKey, nodes[i], i)
    ensures forall i | 0 <= i < |out| ::
              out[i] == nodes[i].(id := out[i].id, components := out[i].components)
  {
    seq(|nodes|, i requires 0 <= i < |nodes| => NormalizeSingle(nodes[i].(id := NewId(protocolKey, nodes[i], i))))
  }

  /** A renumbered node differs from the old one in its id, made of protocol, family, action and
      number, or of protocol, family and number when it is combined, and in that a single node that
      had no components has itself as its component. */
  lemma ReindexedNode(protocolKey: string, nodes: seq<StrategyNode>, i: nat)
    requires i < |nodes|
    ensures var old', new' := nodes[i], Reindexed(protocolKey, nodes)[i];
            && new' == old'.(id := new'.id, components := new'.components)
            && new'.id == (if old'.isCombined then protocolKey + "_" + old'.family + "_" + RenderNat(i)
                           else protocolKey + "_" + old'.family + "_" + old'.actionId + "_" + RenderNat(i))
            && new'.components == if !old'.isCombined && old'.components == []
                                  then [StrategyComponent(old'.family, old'.actionId, old'.args)] else old'.components
  {
  }

  /** Renumbered ids are pairwise distinct, so they can key the posteriors. */
  lemma ReindexedIdsDistinct(protocolKey: string, nodes: seq<StrategyNode>, i: nat, j: nat)
    requires i < j < |nodes|
    ensures Reindexed(protocolKey, nodes)[i].id != Reindexed(protocolKey, nodes)[j].id
  {
    var stem := (n: StrategyNode) =>
      if n.isCombined then protocolKey + "_" + n.family else protocolKey + "_" + n.family + "_" + n.actionId;
    if NewId(protocolKey, nodes[i], i) == NewId(protocolKey, nodes[j], j) {
      NumberedSuffix(stem(nodes[i]), i, stem(nodes[j]), j);
    }
  }

  // The whole selection

  lemma {:induction false} KeptOfSortedIsSorted(nodes: seq<StrategyNode>, caps: Caps)
    requires Sorted(NodesLe(FamilyDiversityRank), nodes)
    ensures Sorted(NodesLe(FamilyDiversityRank), Kept(nodes, caps))
  {
    if nodes != [] {
      var earlier := nodes[..|nodes| - 1];
      var kept := Kept(earlier, caps);
      KeptOfSortedIsSorted(earlier, caps);
      KeptComesFrom(earlier, caps);
      BelowTheLast(NodesLe(FamilyDiversityRank), nodes, kept);
    }
  }

  lemma BelowTheLast(le: (StrategyNode, StrategyNode) -> bool, nodes: seq<StrategyNode>, kept: seq<StrategyNode>)
    requires nodes != [] && Sorted(le, nodes) && multiset(kept) <= multiset(nodes[..|nodes| - 1])
    ensures forall i | 0 <= i < |kept| :: le(kept[i], nodes[|nodes| - 1])
  {
    var earlier := nodes[..|nodes| - 1];
    forall i | 0 <= i < |kept| ensures le(kept[i], nodes[|nodes| - 1]) {
      assert kept[i] in multiset(kept);
      assert kept[i] in multiset(earlier);
      var j :| 0 <= j < |earlier| && earlier[j] == kept[i];
      assert le(nodes[j], nodes[|nodes| - 1]);
    }
  }

  lemma SubsetStaysSelected(selected: seq<StrategyNode>, kept: seq<StrategyNode>, caps: Caps)
    requires multiset(selected) <= multiset(kept) && WithinCaps(kept, caps) && DistinctKeys(kept)
    ensures WithinCaps(selected, caps) && DistinctKeys(selected)
  {
    forall f ensures Count(selected, InFamily(f)) <= caps.perFamily {
      CountMonotone(selected, kept, InFamily(f));
    }
    forall f, a ensures Count(selected, InAction(f, a)) <= caps.perAction {
      CountMonotone(selected, kept, InAction(f, a));
    }
    forall i, j | 0 <= i < j < |selected| ensures ArgsKey(selected[i]) != ArgsKey(selected[j]) {
      KeyPairImpossible(selected, kept, i, j);
    }
  }

  lemma KeyPairImpossible(selected: seq<StrategyNode>, kept: seq<StrategyNode>, i: nat, j: nat)
    requires multiset(selected) <= multiset(kept) && DistinctKeys(kept) && i < j < |selected|
    ensures ArgsKey(selected[i]) != ArgsKey(selected[j])
  {
    if ArgsKey(selected[i]) == ArgsKey(selected[j]) {
      var p := (node: StrategyNode) => ArgsKey(node) == ArgsKey(selected[i]);
      assert selected[..i + 1][..i] == selected[..i] && selected[..j + 1][..j] == selected[..j];
      CountOfPrefix(selected[..i + 1], selected[..j], p);
      CountOfPrefix(selected[..j + 1], selected, p);
      CountMonotone(selected, kept, p);
      AtMostOneOfAKey(kept, p, ArgsKey(selected[i]));
    }
  }

  lemma {:induction false} AtMostOneOfAKey(kept: seq<StrategyNode>, p: StrategyNode -> bool, key: string)
    requires DistinctKeys(kept) && forall n :: p(n) <==> ArgsKey(n) == key
    ensures Count(kept, p) <= 1
    ensures Count(kept, p) == 1 ==> exists i | 0 <= i < |kept| :: ArgsKey(kept[i]) == key
  {
    if kept != [] {
      AtMostOneOfAKey(kept[..|kept| - 1], p, key);
    }
  }

  /** As many of the kept nodes as allowed: in fair rounds, or the first ones. */
  ghost predicate Selects(
    kept: seq<StrategyNode>, maxCandidates: nat, roundRobinFamilies: bool, selected: seq<StrategyNode>)
  {
    && |selected| == Min(maxCandidates, |kept|)
    && multiset(selected) <= multiset(kept)
    && (maxCandidates >= |kept| ==> multiset(selected) == multiset(kept))
    && if roundRobinFamilies then RoundRobinOf(GroupsOf(kept), selected) else selected == kept[..|selected|]
  }

  function SortAndTruncate(filtered: seq<StrategyNode>, maxCandidates: nat): seq<StrategyNode> {
    var sorted := SortBy(NodesLe(FamilyDiversityRank), filtered);
    sorted[..Min(maxCandidates, |sorted|)]
  }

  /** The second sort of the filtered nodes leaves them as they are. */
  lemma ResortingChangesNothing(nodes: seq<StrategyNode>, caps: Caps)
    ensures var kept := Kept(SortBy(NodesLe(FamilyDiversityRank), nodes), caps);
            SortBy(NodesLe(FamilyDiversityRank), kept) == kept
  {
    var le := NodesLe(FamilyDiversityRank);
    NodesLeIsTotalPreorder(FamilyDiversityRank);
    SortBySorts(le, nodes);
    KeptOfSortedIsSorted(SortBy(le, nodes), caps);
    SortByOfSorted(le, Kept(SortBy(le, nodes), caps));
  }

  /** `select_diverse_nodes`: `selected` are the chosen nodes before their renumbering. */
  method SelectDiverseNodes(
    nodes: seq<StrategyNode>, protocolKey: string, maxCandidates: nat, caps: Caps, roundRobinFamilies: bool)
    returns (out: seq<StrategyNode>, ghost selected: seq<StrategyNode>)
    ensures out == Reindexed(protocolKey, selected)
    ensures Selects(Kept(SortBy(NodesLe(FamilyDiversityRank), nodes), caps), maxCandidates, roundRobinFamilies, selected)
    ensures WithinCaps(selected, caps) && DistinctKeys(selected)
    ensures DistinctIds(out) && DistinctKeys(out)
    ensures !roundRobinFamilies ==> InQualityOrder(selected)
    ensures roundRobinFamilies ==>
              InDiversityOrder(selected) && BestFirst(Kept(SortBy(NodesLe(FamilyDiversityRank), nodes), caps), selected)
  {
    var sorted := SortBy(NodesLe(FamilyDiversityRank), nodes);
    var filtered := GreedyFilter(sorted, caps);
    var chosen: seq<StrategyNode>;
    if roundRobinFamilies {
      chosen := RoundRobinByFamily(filtered, maxCandidates);
    } else {
      chosen := SortAndTruncate(filtered, maxCandidates);
      TruncatedSelects(nodes, caps, maxCandidates);
    }
    selected := chosen;
    SelectedStaysGood(sorted, caps, maxCandidates, roundRobinFamilies, selected);
    SelectedInOrder(nodes, caps, maxCandidates, roundRobinFamilies, selected);
    out := Reindexed(protocolKey, chosen);
    RenumberedStaysDistinct(protocolKey, chosen);
  }

  /** By family rank, family, action and id. */
  ghost predicate InQualityOrder(nodes: seq<StrategyNode>) {
    forall i, j | 0 <= i < j < |nodes| :: Precedes(FamilyDiversityRank, nodes[i], nodes[j])
  }

  /** The greedy pass meets the nodes in quality order, and keeps them in it. */
  lemma KeptInOrder(nodes: seq<StrategyNode>, caps: Caps)
    ensures InQualityOrder(SortBy(NodesLe(FamilyDiversityRank), nodes))
    ensures InQualityOrder(Kept(SortBy(NodesLe(FamilyDiversityRank), nodes), caps))
  {
    var le := NodesLe(FamilyDiversityRank);
    NodesLeIsTotalPreorder(FamilyDiversityRank);
    SortBySorts(le, nodes);
    KeptOfSortedIsSorted(SortBy(le, nodes), caps);
    SortedIsInOrder(SortBy(le, nodes));
    SortedIsInOrder(Kept(SortBy(le, nodes), caps));
  }

  lemma SortedIsInOrder(nodes: seq<StrategyNode>)
    requires Sorted(NodesLe(FamilyDiversityRank), nodes)
    ensures InQualityOrder(nodes)
  {
    forall i, j | 0 <= i < j < |nodes| ensures Precedes(FamilyDiversityRank, nodes[i], nodes[j]) {
      assert NodesLe(FamilyDiversityRank)(nodes[i], nodes[j]);
      NodesLeMeans(FamilyDiversityRank, nodes[i], nodes[j]);
    }
  }

  lemma SelectedInOrder(
    nodes: seq<StrategyNode>, caps: Caps, maxCandidates: nat, roundRobinFamilies: bool, selected: seq<StrategyNode>)
    requires Selects(Kept(SortBy(NodesLe(FamilyDiversityRank), nodes), caps), maxCandidates, roundRobinFamilies, selected)
    ensures !roundRobinFamilies ==> InQualityOrder(selected)
    ensures roundRobinFamilies ==>
              InDiversityOrder(selected) && BestFirst(Kept(SortBy(NodesLe(FamilyDiversityRank), nodes), caps), selected)
  {
    var kept := Kept(SortBy(NodesLe(FamilyDiversityRank), nodes), caps);
    if roundRobinFamilies {
      RoundsInOrder(GroupsOf(kept), selected);
      FamiliesAreBestFirst(kept, selected);
    } else {
      KeptInOrder(nodes, caps);
      assert forall i | 0 <= i < |selected| :: selected[i] == kept[i];
    }
  }

  lemma TruncatedSelects(nodes: seq<StrategyNode>, caps: Caps, maxCandidates: nat)
    ensures var kept := Kept(SortBy(NodesLe(FamilyDiversityRank), nodes), caps);
            Selects(kept, maxCandidates, false, SortAndTruncate(kept, maxCandidates))
  {
    ResortingChangesNothing(nodes, caps);
    FirstOfKept(Kept(SortBy(NodesLe(FamilyDiversityRank), nodes), caps), maxCandidates);
  }

  lemma FirstOfKept(kept: seq<StrategyNode>, maxCandidates: nat)
    ensures Selects(kept, maxCandidates, false, kept[..Min(maxCandidates, |kept|)])
  {
    var first := kept[..Min(maxCandidates, |kept|)];
    assert kept == first + kept[|first|..];
  }

  lemma SelectedStaysGood(
    sorted: seq<StrategyNode>, caps: Caps, maxCandidates: nat, roundRobinFamilies: bool, selected: seq<StrategyNode>)
    requires Selects(Kept(sorted, caps), maxCandidates, roundRobinFamilies, selected)
    ensures WithinCaps(selected, caps) && DistinctKeys(selected)
  {
    KeptIsWithinCaps(sorted, caps);
    SubsetStaysSelected(selected, Kept(sorted, caps), caps);
  }

  lemma RenumberedStaysDistinct(protocolKey: string, nodes: seq<StrategyNode>)
    requires DistinctKeys(nodes)
    ensures DistinctKeys(Reindexed(protocolKey, nodes))
    ensures DistinctIds(Reindexed(protocolKey, nodes))
  {
    var out := Reindexed(protocolKey, nodes);
    forall i, j | 0 <= i < j < |out| ensures out[i].id != out[j].id && ArgsKey(out[i]) != ArgsKey(out[j]) {
      ReindexedIdsDistinct(protocolKey, nodes, i, j);
      assert ArgsKey(nodes[i]) != ArgsKey(nodes[j]);
      assert out[i].args == nodes[i].args && out[j].args == nodes[j].args;
    }
  }
}
