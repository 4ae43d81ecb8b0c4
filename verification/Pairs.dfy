/** `generate_combined_nodes` (src/graph.rs): every eligible pair of single strategies, once. */
module Pairs {
  import opened Types
  import opened Text
  import opened Sorting
  import opened Counting
  import opened Nodes
  import opened Selection

  datatype AllowedCombination = AllowedCombination(protocols: seq<string>, families: seq<string>)

  datatype CombinationConfig = CombinationConfig(
    enabled: bool, requireDifferentFamily: bool, allowSameAction: bool, mode: string,
    allowed: seq<AllowedCombination>)

  predicate Allows(allowed: AllowedCombination, protocolKey: string, a: string, b: string) {
    && protocolKey in allowed.protocols && |allowed.families| == 2
    && (|| (allowed.families[0] == a && allowed.families[1] == b)
        || (allowed.families[0] == b && allowed.families[1] == a))
  }

  predicate PairAllowed(cfg: CombinationConfig, protocolKey: string, a: string, b: string) {
    && cfg.enabled
    && if cfg.mode == "force" then !cfg.requireDifferentFamily || a != b
       else exists i | 0 <= i < |cfg.allowed| :: Allows(cfg.allowed[i], protocolKey, a, b)
  }

  predicate ArgsIntersect(a: seq<string>, b: seq<string>) {
    exists arg | arg in b :: arg in a
  }

  /** The conditions under which the loop body combines two singles. */
  predicate Eligible(cfg: CombinationConfig, protocolKey: string, first: StrategyNode, second: StrategyNode) {
    && first.id != second.id
    && !(cfg.requireDifferentFamily && first.family == second.family)
    && (cfg.allowSameAction || first.actionId != second.actionId)
    && !ArgsIntersect(first.args, second.args)
    && (cfg.mode == "force" || PairAllowed(cfg, protocolKey, first.family, second.family))
  }

  /** Eligibility does not depend on the order of the two. */
  lemma EligibleIsSymmetric(cfg: CombinationConfig, protocolKey: string, a: StrategyNode, b: StrategyNode)
    ensures Eligible(cfg, protocolKey, a, b) <==> Eligible(cfg, protocolKey, b, a)
  {
    if exists i | 0 <= i < |cfg.allowed| :: Allows(cfg.allowed[i], protocolKey, a.family, b.family) {
      var i :| 0 <= i < |cfg.allowed| && Allows(cfg.allowed[i], protocolKey, a.family, b.family);
      assert Allows(cfg.allowed[i], protocolKey, b.family, a.family);
    }
    if exists i | 0 <= i < |cfg.allowed| :: Allows(cfg.allowed[i], protocolKey, b.family, a.family) {
      var i :| 0 <= i < |cfg.allowed| && Allows(cfg.allowed[i], protocolKey, b.family, a.family);
      assert Allows(cfg.allowed[i], protocolKey, a.family, b.family);
    }
  }

  function OrderedComponents(a: StrategyNode, b: StrategyNode): (StrategyNode, StrategyNode) {
    if CompareCombinationInput(a, b).Greater? then (b, a) else (a, b)
  }

  function ComponentOf(node: StrategyNode): StrategyComponent {
    StrategyComponent(node.family, node.actionId, node.args)
  }

  function MaxReal(a: real, b: real): real { if a < b then b else a }

  function MinReal(a: real, b: real): real { if a < b then a else b }

  function CombinedNode(protocolKey: string, first: StrategyNode, second: StrategyNode, n: nat): StrategyNode {
    StrategyNode(
      protocolKey + "_combined_" + first.family + "_" + second.family + "_" + RenderNat(n),
      "combined_" + first.family + "_" + second.family,
      first.actionId + "+" + second.actionId,
      first.args + second.args,
      [ComponentOf(first), ComponentOf(second)],
      true,
      first.cost + second.cost + 3.0,
      MaxReal(first.risk, second.risk) + 0.1 * MinReal(first.risk, second.risk),
      (1.0, 1.0))
  }

  predicate IsSingle(node: StrategyNode) { !node.isCombined && !Contains(node.actionId, "_legacy") }

  function Singles(nodes: seq<StrategyNode>): seq<StrategyNode> {
    if nodes == [] then []
    else
      var last := nodes[|nodes| - 1];
      Singles(nodes[..|nodes| - 1]) + SingleOf(last)
  }

  function SingleOf(node: StrategyNode): seq<StrategyNode> {
    if IsSingle(node) then [NormalizeSingle(node)] else []
  }

  function SortedSingles(nodes: seq<StrategyNode>): seq<StrategyNode> {
    SortBy(NodesLe(CombinationFamilyRank), Singles(nodes))
  }

  /** One pass through the loop body. */
  function AddPair(
    cfg: CombinationConfig, protocolKey: string, out: seq<StrategyNode>, a: StrategyNode, b: StrategyNode)
    : seq<StrategyNode>
  {
    var (first, second) := OrderedComponents(a, b);
    var node := CombinedNode(protocolKey, first, second, |out|);
    if Eligible(cfg, protocolKey, first, second) && !HasKey(out, ArgsKey(node)) then out + [node] else out
  }

  /** The state of two nested loops over the index pairs i < j < n, when they stand at (i, j). */
  function Loops<T>(step: (T, nat, nat) -> T, init: T, n: nat, i: nat, j: nat): T
    requires i < j <= n
    decreases i, j
  {
    if j > i + 1 then step(Loops(step, init, n, i, j - 1), i, j - 1)
    else if i == 0 then init
    else Loops(step, init, n, i - 1, n)
  }

  /** The rule for such loops: what holds at the start, survives each pass through the body and each
      change of row, holds wherever the loops stand. */
  lemma {:induction false} LoopsKeep<T>(
    step: (T, nat, nat) -> T, init: T, n: nat, inv: (T, nat, nat) -> bool, i: nat, j: nat)
    requires i < j <= n && inv(init, 0, 1)
    requires forall t: T, a: nat, b: nat | a < b < n && inv(t, a, b) :: inv(step(t, a, b), a, b + 1)
    requires forall t: T, a: nat | a + 1 < n && inv(t, a, n) :: inv(t, a + 1, a + 2)
    ensures inv(Loops(step, init, n, i, j), i, j)
    decreases i, j
  {
    if j > i + 1 {
      LoopsKeep(step, init, n, inv, i, j - 1);
    } else if i > 0 {
      LoopsKeep(step, init, n, inv, i - 1, n);
    }
  }

  function PairStep(cfg: CombinationConfig, protocolKey: string, s: seq<StrategyNode>)
    : (seq<StrategyNode>, nat, nat) -> seq<StrategyNode>
  {
    (out: seq<StrategyNode>, a: nat, b: nat) => if a < |s| && b < |s| then AddPair(cfg, protocolKey, out, s[a], s[b]) else out
  }

  /** The output after the pairs (x, y) with x < i, and the pairs (i, y) with y < j. */
  function After(cfg: CombinationConfig, protocolKey: string, s: seq<StrategyNode>, i: nat, j: nat): seq<StrategyNode>
    requires i < j <= |s|
  {
    Loops(PairStep(cfg, protocolKey, s), [], |s|, i, j)
  }

  function AllPairs(cfg: CombinationConfig, protocolKey: string, s: seq<StrategyNode>): seq<StrategyNode> {
    if s == [] then [] else After(cfg, protocolKey, s, |s| - 1, |s|)
  }

  lemma AfterStep(cfg: CombinationConfig, protocolKey: string, s: seq<StrategyNode>, i: nat, j: nat)
    requires i < j < |s|
    ensures After(cfg, protocolKey, s, i, j + 1)
         == AddPair(cfg, protocolKey, After(cfg, protocolKey, s, i, j), s[i], s[j])
  {
  }

  /** At the start of a row nothing has been added to the rows before. */
  lemma AfterRow(cfg: CombinationConfig, protocolKey: string, s: seq<StrategyNode>, i: nat)
    requires i < |s|
    ensures After(cfg, protocolKey, s, i, i + 1) == if i == 0 then [] else After(cfg, protocolKey, s, i - 1, |s|)
  {
  }

  method GenerateCombinedNodes(protocolKey: string, baseNodes: seq<StrategyNode>, cfg: CombinationConfig)
    returns (out: seq<StrategyNode>)
    ensures out == if cfg.enabled then AllPairs(cfg, protocolKey, SortedSingles(baseNodes)) else []
  {
    out := [];
    if !cfg.enabled {
      return;
    }
    var singles := SortedSingles(baseNodes);
    out := CombineAll(protocolKey, singles, cfg);
  }

  /** The two nested loops. */
  method CombineAll(protocolKey: string, singles: seq<StrategyNode>, cfg: CombinationConfig)
    returns (out: seq<StrategyNode>)
    ensures out == AllPairs(cfg, protocolKey, singles)
  {
    out := [];
    var seen: set<string> := {};
    for i := 0 to |singles|
      invariant out == if i == 0 then [] else After(cfg, protocolKey, singles, i - 1, |singles|)
      invariant SeenKeys(seen, out)
    {
      AfterRow(cfg, protocolKey, singles, i);
      for j := i + 1 to |singles|
        invariant out == After(cfg, protocolKey, singles, i, j)
        invariant SeenKeys(seen, out)
      {
        out, seen := ConsiderPair(protocolKey, cfg, out, seen, singles[i], singles[j]);
        AfterStep(cfg, protocolKey, singles, i, j);
      }
    }
  }

  /** The loop body: combines two singles unless they are not eligible or their key has been seen. */
  method ConsiderPair(
    protocolKey: string, cfg: CombinationConfig, out: seq<StrategyNode>, seen: set<string>, a: StrategyNode, b: StrategyNode)
    returns (out': seq<StrategyNode>, seen': set<string>)
    requires SeenKeys(seen, out)
    ensures out' == AddPair(cfg, protocolKey, out, a, b) && SeenKeys(seen', out')
  {
    var (first, second) := OrderedComponents(a, b);
    if !Eligible(cfg, protocolKey, first, second) {
      return out, seen;
    }
    var node := CombinedNode(protocolKey, first, second, |out|);
    var key := ArgsKey(node);
    if key in seen {
      return out, seen;
    }
    SeeOne(seen, out, node);
    return out + [node], seen + {key};
  }

  // What the output is

  /** `node` is the combination of the singles `a` and `b`, in combination order. */
  ghost predicate Combines(
    cfg: CombinationConfig, protocolKey: string, s: seq<StrategyNode>, node: StrategyNode, n: nat, a: nat, b: nat)
  {
    a < b < |s|
    && var (first, second) := OrderedComponents(s[a], s[b]);
       Eligible(cfg, protocolKey, first, second) && node == CombinedNode(protocolKey, first, second, n)
  }

  ghost predicate FromAPair(
    cfg: CombinationConfig, protocolKey: string, s: seq<StrategyNode>, node: StrategyNode, n: nat)
  {
    exists a: nat, b: nat :: Combines(cfg, protocolKey, s, node, n, a, b)
  }

  ghost predicate Sound(cfg: CombinationConfig, protocolKey: string, s: seq<StrategyNode>, out: seq<StrategyNode>) {
    forall n | 0 <= n < |out| :: FromAPair(cfg, protocolKey, s, out[n], n)
  }

  function PairKey(a: StrategyNode, b: StrategyNode): string {
    var (first, second) := OrderedComponents(a, b);
    Join(first.args + second.args, NUL)
  }

  predicate PairEligible(cfg: CombinationConfig, protocolKey: string, a: StrategyNode, b: StrategyNode) {
    var (first, second) := OrderedComponents(a, b);
    Eligible(cfg, protocolKey, first, second)
  }

  lemma DistinctAppend(out: seq<StrategyNode>, node: StrategyNode)
    requires DistinctKeys(out) && !HasKey(out, ArgsKey(node))
    ensures DistinctKeys(out + [node])
  {
    forall i | 0 <= i < |out| ensures ArgsKey(out[i]) != ArgsKey(node) {
    }
  }

  lemma AddPairKeys(cfg: CombinationConfig, protocolKey: string, out: seq<StrategyNode>, a: StrategyNode, b: StrategyNode)
    requires DistinctKeys(out)
    ensures DistinctKeys(AddPair(cfg, protocolKey, out, a, b))
  {
    var (first, second) := OrderedComponents(a, b);
    var node := CombinedNode(protocolKey, first, second, |out|);
    if !HasKey(out, ArgsKey(node)) {
      DistinctAppend(out, node);
    }
  }

  /** No key is lost, and the key of an eligible pair is present afterwards. */
  lemma AddPairCovers(cfg: CombinationConfig, protocolKey: string, out: seq<StrategyNode>, a: StrategyNode, b: StrategyNode)
    ensures var next := AddPair(cfg, protocolKey, out, a, b);
            && (forall k :: HasKey(out, k) ==> HasKey(next, k))
            && (PairEligible(cfg, protocolKey, a, b) ==> HasKey(next, PairKey(a, b)))
  {
    var (first, second) := OrderedComponents(a, b);
    var node := CombinedNode(protocolKey, first, second, |out|);
    forall k ensures HasKey(out + [node], k) <==> HasKey(out, k) || k == ArgsKey(node) {
      HasKeyAppend(out, node, k);
    }
  }

  lemma AddPairSound(
    cfg: CombinationConfig, protocolKey: string, s: seq<StrategyNode>, out: seq<StrategyNode>, a: nat, b: nat)
    requires a < b < |s| && Sound(cfg, protocolKey, s, out)
    ensures Sound(cfg, protocolKey, s, AddPair(cfg, protocolKey, out, s[a], s[b]))
  {
    var next := AddPair(cfg, protocolKey, out, s[a], s[b]);
    forall n | 0 <= n < |next| ensures FromAPair(cfg, protocolKey, s, next[n], n) {
      if n == |out| {
        assert Combines(cfg, protocolKey, s, next[n], n, a, b);
      } else {
        assert FromAPair(cfg, protocolKey, s, out[n], n);
      }
    }
  }

  /** Pairs (x, y) already passed when the loops stand at (i, j). */
  predicate Passed(x: nat, y: nat, i: nat, j: nat) { x < y && (x < i || (x == i && y < j)) }

  ghost predicate Complete(
    cfg: CombinationConfig, protocolKey: string, s: seq<StrategyNode>, out: seq<StrategyNode>, i: nat, j: nat)
  {
    forall x: nat, y: nat | Passed(x, y, i, j) && y < |s| && PairEligible(cfg, protocolKey, s[x], s[y]) ::
      HasKey(out, PairKey(s[x], s[y]))
  }

  lemma CompleteStep(
    cfg: CombinationConfig, protocolKey: string, s: seq<StrategyNode>, out: seq<StrategyNode>, i: nat, j: nat)
    requires i < j < |s| && Complete(cfg, protocolKey, s, out, i, j)
    ensures Complete(cfg, protocolKey, s, AddPair(cfg, protocolKey, out, s[i], s[j]), i, j + 1)
  {
    AddPairCovers(cfg, protocolKey, out, s[i], s[j]);
    var next := AddPair(cfg, protocolKey, out, s[i], s[j]);
    forall x: nat, y: nat | Passed(x, y, i, j + 1) && y < |s| && PairEligible(cfg, protocolKey, s[x], s[y])
      ensures HasKey(next, PairKey(s[x], s[y]))
    {
      assert Passed(x, y, i, j) || (x == i && y == j);
    }
  }

  lemma CompleteSteps(cfg: CombinationConfig, protocolKey: string, s: seq<StrategyNode>)
    ensures forall out: seq<StrategyNode>, a: nat, b: nat | a < b < |s| && Complete(cfg, protocolKey, s, out, a, b) ::
              Complete(cfg, protocolKey, s, PairStep(cfg, protocolKey, s)(out, a, b), a, b + 1)
  {
    forall out: seq<StrategyNode>, a: nat, b: nat | a < b < |s| && Complete(cfg, protocolKey, s, out, a, b)
      ensures Complete(cfg, protocolKey, s, PairStep(cfg, protocolKey, s)(out, a, b), a, b + 1)
    {
      CompleteStep(cfg, protocolKey, s, out, a, b);
    }
  }

  lemma CompleteStart(cfg: CombinationConfig, protocolKey: string, s: seq<StrategyNode>)
    ensures Complete(cfg, protocolKey, s, [], 0, 1)
  {
    assert forall x: nat, y: nat :: !Passed(x, y, 0, 1);
  }

  /** At the end of a row the next one starts. */
  lemma CompleteRow(cfg: CombinationConfig, protocolKey: string, s: seq<StrategyNode>, out: seq<StrategyNode>, i: nat)
    requires i + 1 < |s| && Complete(cfg, protocolKey, s, out, i, |s|)
    ensures Complete(cfg, protocolKey, s, out, i + 1, i + 2)
  {
    forall x: nat, y: nat | Passed(x, y, i + 1, i + 2) && y < |s| && PairEligible(cfg, protocolKey, s[x], s[y])
      ensures HasKey(out, PairKey(s[x], s[y]))
    {
      assert Passed(x, y, i, |s|);
    }
  }

  lemma PairsAreSound(cfg: CombinationConfig, protocolKey: string, s: seq<StrategyNode>)
    ensures Sound(cfg, protocolKey, s, AllPairs(cfg, protocolKey, s))
  {
    if s != [] {
      var inv := (out: seq<StrategyNode>, i: nat, j: nat) => Sound(cfg, protocolKey, s, out);
      var step := PairStep(cfg, protocolKey, s);
      forall out: seq<StrategyNode>, a: nat, b: nat | a < b < |s| && inv(out, a, b) ensures inv(step(out, a, b), a, b + 1) {
        AddPairSound(cfg, protocolKey, s, out, a, b);
      }
      LoopsKeep(step, [], |s|, inv, |s| - 1, |s|);
    }
  }

  lemma PairsAreDistinct(cfg: CombinationConfig, protocolKey: string, s: seq<StrategyNode>)
    ensures DistinctKeys(AllPairs(cfg, protocolKey, s))
  {
    if s != [] {
      var inv := (out: seq<StrategyNode>, i: nat, j: nat) => DistinctKeys(out);
      var step := PairStep(cfg, protocolKey, s);
      forall out: seq<StrategyNode>, a: nat, b: nat | a < b < |s| && inv(out, a, b) ensures inv(step(out, a, b), a, b + 1) {
        AddPairKeys(cfg, protocolKey, out, s[a], s[b]);
      }
      LoopsKeep(step, [], |s|, inv, |s| - 1, |s|);
    }
  }

  lemma PairsAreComplete(cfg: CombinationConfig, protocolKey: string, s: seq<StrategyNode>)
    requires s != []
    ensures Complete(cfg, protocolKey, s, AllPairs(cfg, protocolKey, s), |s| - 1, |s|)
  {
    var inv := (out: seq<StrategyNode>, i: nat, j: nat) => Complete(cfg, protocolKey, s, out, i, j);
    var step := PairStep(cfg, protocolKey, s);
    CompleteStart(cfg, protocolKey, s);
    assert inv([], 0, 1);
    CompleteSteps(cfg, protocolKey, s);
    forall out: seq<StrategyNode>, a: nat | a + 1 < |s| && inv(out, a, |s|) ensures inv(out, a + 1, a + 2) {
      CompleteRow(cfg, protocolKey, s, out, a);
    }
    LoopsKeep(step, [], |s|, inv, |s| - 1, |s|);
  }

  /** Sound, complete, irredundant: every output combines an eligible pair of singles, every eligible
      pair has its key among the outputs, and no two outputs share a key or an id. */
  lemma PairsAreExact(cfg: CombinationConfig, protocolKey: string, s: seq<StrategyNode>)
    ensures var out := AllPairs(cfg, protocolKey, s);
            && Sound(cfg, protocolKey, s, out)
            && DistinctKeys(out) && DistinctIds(out)
            && forall x: nat, y: nat | x < y < |s| && PairEligible(cfg, protocolKey, s[x], s[y]) ::
                 HasKey(out, PairKey(s[x], s[y]))
  {
    PairsAreSound(cfg, protocolKey, s);
    PairsAreDistinct(cfg, protocolKey, s);
    SoundIdsDistinct(cfg, protocolKey, s, AllPairs(cfg, protocolKey, s));
    if s != [] {
      PairsAreComplete(cfg, protocolKey, s);
      forall x: nat, y: nat | x < y < |s| && PairEligible(cfg, protocolKey, s[x], s[y])
        ensures HasKey(AllPairs(cfg, protocolKey, s), PairKey(s[x], s[y]))
      {
        assert Passed(x, y, |s| - 1, |s|);
      }
    }
  }

  lemma SoundIdsDistinct(cfg: CombinationConfig, protocolKey: string, s: seq<StrategyNode>, out: seq<StrategyNode>)
    requires Sound(cfg, protocolKey, s, out)
    ensures DistinctIds(out)
  {
    forall m, n | 0 <= m < n < |out| ensures out[m].id != out[n].id {
      assert FromAPair(cfg, protocolKey, s, out[m], m) && FromAPair(cfg, protocolKey, s, out[n], n);
      var a: nat, b: nat :| Combines(cfg, protocolKey, s, out[m], m, a, b);
      var c: nat, d: nat :| Combines(cfg, protocolKey, s, out[n], n, c, d);
      var (f, g) := OrderedComponents(s[a], s[b]);
      var (h, k) := OrderedComponents(s[c], s[d]);
      if out[m].id == out[n].id {
        var stem := protocolKey + "_combined_";
        assert out[m].id == (stem + f.family + "_" + g.family) + "_" + RenderNat(m);
        assert out[n].id == (stem + h.family + "_" + k.family) + "_" + RenderNat(n);
        NumberedSuffix(stem + f.family + "_" + g.family, m, stem + h.family + "_" + k.family, n);
      }
    }
  }

  // What the output is, over its own fields

  /** A base node that may be combined: not combined itself and no legacy action. */
  ghost predicate Combinable(node: StrategyNode) {
    !node.isCombined && forall i: nat :: !OccursAt(node.actionId, "_legacy", i)
  }

  /** What the configuration asks of two singles. */
  ghost predicate Compatible(cfg: CombinationConfig, protocolKey: string, a: StrategyNode, b: StrategyNode) {
    && a.id != b.id
    && (forall arg :: !(arg in a.args && arg in b.args))
    && (cfg.requireDifferentFamily ==> a.family != b.family)
    && (!cfg.allowSameAction ==> a.actionId != b.actionId)
    && (cfg.mode != "force" ==>
          cfg.enabled && exists i | 0 <= i < |cfg.allowed| :: Lists(cfg.allowed[i], protocolKey, a.family, b.family))
  }

  /** The entry lists the protocol, and exactly these two families, in either order. */
  predicate Lists(entry: AllowedCombination, protocolKey: string, f: string, g: string) {
    protocolKey in entry.protocols && (entry.families == [f, g] || entry.families == [g, f])
  }

  /** The node that combines `a` and `b`, in this order, as number `n`. */
  predicate IsPairOf(protocolKey: string, node: StrategyNode, n: nat, a: StrategyNode, b: StrategyNode) {
    && node.args == a.args + b.args && node.isCombined
    && node.components == [StrategyComponent(a.family, a.actionId, a.args), StrategyComponent(b.family, b.actionId, b.args)]
    && node.id == protocolKey + "_combined_" + a.family + "_" + b.family + "_" + RenderNat(n)
    && node.family == "combined_" + a.family + "_" + b.family
    && node.actionId == a.actionId + "+" + b.actionId
    && node.cost == a.cost + b.cost + 3.0
    && node.risk == (if a.risk < b.risk then b.risk + 0.1 * a.risk else a.risk + 0.1 * b.risk)
    && node.prior == (1.0, 1.0)
  }

  lemma AllowsMeans(entry: AllowedCombination, protocolKey: string, f: string, g: string)
    ensures Allows(entry, protocolKey, f, g) <==> Lists(entry, protocolKey, f, g)
  {
    if |entry.families| == 2 {
      assert entry.families == [entry.families[0], entry.families[1]];
    }
  }

  /** The conditions of the loop body are those of the configuration. */
  lemma EligibleMeans(cfg: CombinationConfig, protocolKey: string, a: StrategyNode, b: StrategyNode)
    ensures Eligible(cfg, protocolKey, a, b) <==> Compatible(cfg, protocolKey, a, b)
  {
    assert ArgsIntersect(a.args, b.args) <==> exists arg :: arg in a.args && arg in b.args;
    forall i | 0 <= i < |cfg.allowed|
      ensures Allows(cfg.allowed[i], protocolKey, a.family, b.family)
              <==> Lists(cfg.allowed[i], protocolKey, a.family, b.family)
    {
      AllowsMeans(cfg.allowed[i], protocolKey, a.family, b.family);
    }
  }

  /** Which of two singles comes first: by combination rank, family, action and id. */
  lemma FirstPrecedes(a: StrategyNode, b: StrategyNode)
    ensures var (first, second) := OrderedComponents(a, b);
            && ((first == a && second == b) || (first == b && second == a))
            && Precedes(CombinationFamilyRank, first, second)
  {
    CompareNodesLaws(CombinationFamilyRank, a, b);
    NodesLeMeans(CombinationFamilyRank, a, b);
    NodesLeMeans(CombinationFamilyRank, b, a);
  }

  lemma SingleMeans(node: StrategyNode)
    ensures IsSingle(node) <==> Combinable(node)
  {
    ContainsMeans(node.actionId, "_legacy");
  }

  /** A single is a combinable base node, up to its components. */
  lemma {:induction false} SinglesAreCombinable(xs: seq<StrategyNode>, x: StrategyNode) returns (y: StrategyNode)
    requires x in Singles(xs)
    ensures y in xs && Combinable(y) && x == NormalizeSingle(y) && x == y.(components := x.components)
  {
    var init, last := xs[..|xs| - 1], xs[|xs| - 1];
    assert xs == init + [last];
    if x in Singles(init) {
      y := SinglesAreCombinable(init, x);
    } else {
      y := last;
      SingleMeans(last);
    }
  }

  lemma SortedSinglesAre(base: seq<StrategyNode>, x: StrategyNode)
    ensures x in SortedSingles(base) <==> x in Singles(base)
  {
    assert x in multiset(SortedSingles(base)) <==> x in multiset(Singles(base));
  }

  lemma ComponentsDoNotMatter(
    cfg: CombinationConfig, protocolKey: string, node: StrategyNode, n: nat,
    a: StrategyNode, b: StrategyNode, x: StrategyNode, y: StrategyNode)
    requires a == x.(components := a.components) && b == y.(components := b.components)
    ensures Compatible(cfg, protocolKey, a, b) <==> Compatible(cfg, protocolKey, x, y)
    ensures Precedes(CombinationFamilyRank, a, b) <==> Precedes(CombinationFamilyRank, x, y)
    ensures IsPairOf(protocolKey, node, n, a, b) <==> IsPairOf(protocolKey, node, n, x, y)
  {
  }

  /** Soundness: every output combines two combinable base nodes that the configuration lets be
      combined, so with no argument in common, in combination order. */
  lemma OutputsArePairs(cfg: CombinationConfig, protocolKey: string, base: seq<StrategyNode>, n: nat)
    returns (x: StrategyNode, y: StrategyNode)
    requires n < |AllPairs(cfg, protocolKey, SortedSingles(base))|
    ensures x in base && y in base && Combinable(x) && Combinable(y)
    ensures Compatible(cfg, protocolKey, x, y) && Precedes(CombinationFamilyRank, x, y)
    ensures IsPairOf(protocolKey, AllPairs(cfg, protocolKey, SortedSingles(base))[n], n, x, y)
  {
    var s := SortedSingles(base);
    var out := AllPairs(cfg, protocolKey, s);
    PairsAreSound(cfg, protocolKey, s);
    assert FromAPair(cfg, protocolKey, s, out[n], n);
    var i: nat, j: nat :| Combines(cfg, protocolKey, s, out[n], n, i, j);
    var (first, second) := OrderedComponents(s[i], s[j]);
    FirstPrecedes(s[i], s[j]);
    EligibleMeans(cfg, protocolKey, first, second);
    SortedSinglesAre(base, first);
    SortedSinglesAre(base, second);
    x := SinglesAreCombinable(base, first);
    y := SinglesAreCombinable(base, second);
    ComponentsDoNotMatter(cfg, protocolKey, out[n], n, first, second, x, y);
  }

  lemma {:induction false} CombinableIsSingle(xs: seq<StrategyNode>, x: StrategyNode)
    requires x in xs && Combinable(x)
    ensures NormalizeSingle(x) in Singles(xs)
  {
    var init, last := xs[..|xs| - 1], xs[|xs| - 1];
    assert xs == init + [last];
    if x in init {
      CombinableIsSingle(init, x);
    } else {
      SingleMeans(x);
    }
  }

  /** Completeness: any two combinable base nodes that the configuration lets be combined have the key
      of their arguments, in combination order, among the outputs. */
  lemma CompatiblePairsAppear(
    cfg: CombinationConfig, protocolKey: string, base: seq<StrategyNode>, x: StrategyNode, y: StrategyNode)
    requires x in base && y in base && Combinable(x) && Combinable(y)
    requires Compatible(cfg, protocolKey, x, y) && Precedes(CombinationFamilyRank, x, y)
    ensures HasKey(AllPairs(cfg, protocolKey, SortedSingles(base)), Join(x.args + y.args, NUL))
  {
    var s := SortedSingles(base);
    var a, b := NormalizeSingle(x), NormalizeSingle(y);
    CombinableIsSingle(base, x);
    CombinableIsSingle(base, y);
    SortedSinglesAre(base, a);
    SortedSinglesAre(base, b);
    var i: nat :| i < |s| && s[i] == a;
    var j: nat :| j < |s| && s[j] == b;
    KeyOfPair(cfg, protocolKey, x, y, a, b);
    PairsAreExact(cfg, protocolKey, s);
    assert i != j;
    if i < j {
      assert HasKey(AllPairs(cfg, protocolKey, s), PairKey(s[i], s[j]));
    } else {
      assert HasKey(AllPairs(cfg, protocolKey, s), PairKey(s[j], s[i]));
    }
  }

  lemma KeyOfPair(
    cfg: CombinationConfig, protocolKey: string, x: StrategyNode, y: StrategyNode, a: StrategyNode, b: StrategyNode)
    requires a == x.(components := a.components) && b == y.(components := b.components)
    requires Compatible(cfg, protocolKey, x, y) && Precedes(CombinationFamilyRank, x, y)
    ensures PairEligible(cfg, protocolKey, a, b) && PairKey(a, b) == Join(x.args + y.args, NUL)
    ensures PairEligible(cfg, protocolKey, b, a) && PairKey(b, a) == Join(x.args + y.args, NUL)
  {
    EligibleMeans(cfg, protocolKey, a, b);
    EligibleIsSymmetric(cfg, protocolKey, a, b);
    ComponentsDoNotMatter(cfg, protocolKey, a, 0, a, b, x, y);
    CompareNodesLaws(CombinationFamilyRank, a, b);
    CompareNodesLaws(CombinationFamilyRank, b, a);
    NodesLeMeans(CombinationFamilyRank, a, b);
    NodesLeMeans(CombinationFamilyRank, b, a);
    OnlyOneOrder(a, b);
  }

  /** Two nodes with different ids are ordered in one way only. */
  lemma OnlyOneOrder(a: StrategyNode, b: StrategyNode)
    requires a.id != b.id && NodesLe(CombinationFamilyRank)(a, b)
    ensures OrderedComponents(a, b) == (a, b) && OrderedComponents(b, a) == (a, b)
  {
    CompareNodesLaws(CombinationFamilyRank, a, b);
  }

  /** With arguments that contain no NUL and are not missing, completeness is about the arguments
      themselves: every eligible pair's concatenated arguments occur. */
  lemma PairArgsAppear(cfg: CombinationConfig, protocolKey: string, s: seq<StrategyNode>, x: nat, y: nat)
    requires x < y < |s| && PairEligible(cfg, protocolKey, s[x], s[y])
    requires forall i | 0 <= i < |s| :: s[i].args != [] && forall arg | arg in s[i].args :: NUL !in arg
    ensures var (first, second) := OrderedComponents(s[x], s[y]);
            exists n | 0 <= n < |AllPairs(cfg, protocolKey, s)| ::
              AllPairs(cfg, protocolKey, s)[n].args == first.args + second.args
  {
    PairsAreExact(cfg, protocolKey, s);
    var n := KeyMeansArgs(cfg, protocolKey, s, AllPairs(cfg, protocolKey, s), x, y);
  }

  lemma KeyMeansArgs(
    cfg: CombinationConfig, protocolKey: string, s: seq<StrategyNode>, out: seq<StrategyNode>, x: nat, y: nat)
    returns (n: nat)
    requires x < |s| && y < |s| && Sound(cfg, protocolKey, s, out) && HasKey(out, PairKey(s[x], s[y]))
    requires forall i | 0 <= i < |s| :: s[i].args != [] && forall arg | arg in s[i].args :: NUL !in arg
    ensures var (first, second) := OrderedComponents(s[x], s[y]);
            n < |out| && out[n].args == first.args + second.args
  {
    var (first, second) := OrderedComponents(s[x], s[y]);
    n :| n < |out| && ArgsKey(out[n]) == PairKey(s[x], s[y]);
    assert FromAPair(cfg, protocolKey, s, out[n], n);
    var a: nat, b: nat :| Combines(cfg, protocolKey, s, out[n], n, a, b);
    JoinInjective(out[n].args, first.args + second.args, NUL);
  }

  // Independence of the order of the base list

  function Becomes(x: StrategyNode): StrategyNode -> bool {
    (node: StrategyNode) => IsSingle(node) && NormalizeSingle(node) == x
  }

  lemma {:induction false} SinglesMultiplicity(xs: seq<StrategyNode>, x: StrategyNode)
    ensures multiset(Singles(xs))[x] == Count(xs, Becomes(x))
  {
    if xs != [] {
      SinglesMultiplicity(xs[..|xs| - 1], x);
    }
  }

  lemma SinglesPermutation(xs: seq<StrategyNode>, ys: seq<StrategyNode>)
    requires multiset(xs) == multiset(ys)
    ensures multiset(Singles(xs)) == multiset(Singles(ys))
  {
    forall x ensures multiset(Singles(xs))[x] == multiset(Singles(ys))[x] {
      SinglesMultiplicity(xs, x);
      SinglesMultiplicity(ys, x);
      CountPermutation(xs, ys, Becomes(x));
    }
  }

  lemma {:induction false} SinglesComeFrom(xs: seq<StrategyNode>)
    ensures forall x | x in Singles(xs) :: exists y | y in xs :: x == NormalizeSingle(y)
  {
    if xs != [] {
      var init, last := xs[..|xs| - 1], xs[|xs| - 1];
      SinglesComeFrom(init);
      assert xs == init + [last];
      forall x | x in Singles(xs) ensures exists y | y in xs :: x == NormalizeSingle(y) {
        if x in Singles(init) {
          var y :| y in init && x == NormalizeSingle(y);
          assert y in xs;
        } else {
          assert last in xs && x == NormalizeSingle(last);
        }
      }
    }
  }

  /** Permuting a base list with pairwise distinct ids leaves the whole output unchanged. */
  lemma BaseOrderIrrelevant(cfg: CombinationConfig, protocolKey: string, xs: seq<StrategyNode>, ys: seq<StrategyNode>)
    requires multiset(xs) == multiset(ys)
    requires forall a, b | a in xs && b in xs && a.id == b.id :: a == b
    ensures AllPairs(cfg, protocolKey, SortedSingles(xs)) == AllPairs(cfg, protocolKey, SortedSingles(ys))
  {
    SinglesPermutation(xs, ys);
    SinglesComeFrom(xs);
    forall a, b | a in Singles(xs) && b in Singles(xs) && a.id == b.id ensures a == b {
      var a' :| a' in xs && a == NormalizeSingle(a');
      var b' :| b' in xs && b == NormalizeSingle(b');
    }
    SortIsCanonical(CombinationFamilyRank, Singles(xs), Singles(ys));
  }
}
