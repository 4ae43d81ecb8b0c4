/** Comparators, keys and normalisation of strategy nodes (src/graph.rs). */
module Nodes {
  import opened Types
  import opened Text
  import opened Sorting

  function FamilyDiversityRank(family: string): nat {
    match family
    case "split" => 0 case "fake" => 1 case "disorder" => 2 case "wsize" => 3 case "faked_split" => 4
    case "seqovl" => 5 case "syndata" => 6 case "ipfrag" => 7 case "oob" => 8 case "udp_len" => 9
    case "http_trick" => 10 case "hostfake" => 11 case "ipv6_ext" => 12 case _ => 99
  }

  function CombinationFamilyRank(family: string): nat {
    match family
    case "fake" => 0 case "syndata" => 1 case "ipfrag" => 2 case "udp_len" => 3 case "oob" => 4
    case "split" => 10 case "disorder" => 11 case "faked_split" => 12 case "seqovl" => 13 case "wsize" => 14
    case _ => 50
  }

  /** Family rank, then family, action and id: the chain both node comparators share. */
  function CompareNodes(rank: string -> nat, a: StrategyNode, b: StrategyNode): Ordering {
    CompareNat(rank(a.family), rank(b.family))
      .Then(Compare(a.family, b.family))
      .Then(Compare(a.actionId, b.actionId))
      .Then(Compare(a.id, b.id))
  }

  function NodesLe(rank: string -> nat): (StrategyNode, StrategyNode) -> bool {
    (a: StrategyNode, b: StrategyNode) => !CompareNodes(rank, a, b).Greater?
  }

  function CompareCombinationInput(a: StrategyNode, b: StrategyNode): Ordering {
    CompareNodes(CombinationFamilyRank, a, b)
  }

  /** The order of nodes field by field: family rank, family, action, id. */
  ghost predicate Precedes(rank: string -> nat, a: StrategyNode, b: StrategyNode) {
    || rank(a.family) < rank(b.family)
    || (&& rank(a.family) == rank(b.family)
        && (|| (a.family != b.family && NotAfter(a.family, b.family))
            || (a.family == b.family && a.actionId != b.actionId && NotAfter(a.actionId, b.actionId))
            || (a.family == b.family && a.actionId == b.actionId && NotAfter(a.id, b.id))))
  }

  /** The comparators' order is that order. */
  lemma NodesLeMeans(rank: string -> nat, a: StrategyNode, b: StrategyNode)
    ensures NodesLe(rank)(a, b) <==> Precedes(rank, a, b)
  {
    CompareLaws(a.family, b.family);
    CompareLaws(a.actionId, b.actionId);
    CompareIsLexicographic(a.family, b.family);
    CompareIsLexicographic(a.actionId, b.actionId);
    CompareIsLexicographic(a.id, b.id);
  }

  /** Families in the order in which candidates are diversified, and in which singles are combined. */
  const DIVERSITY: seq<string> := [
    "split", "fake", "disorder", "wsize", "faked_split", "seqovl", "syndata", "ipfrag", "oob", "udp_len",
    "http_trick", "hostfake", "ipv6_ext"]
  const COMBINATION: seq<string> := [
    "fake", "syndata", "ipfrag", "udp_len", "oob", "split", "disorder", "faked_split", "seqovl", "wsize"]

  /** The ranks put the families in the listed order, and all others behind them, equal. */
  lemma RanksFollowLists()
    ensures forall i, j | 0 <= i < j < |DIVERSITY| :: FamilyDiversityRank(DIVERSITY[i]) < FamilyDiversityRank(DIVERSITY[j])
    ensures forall i, j | 0 <= i < j < |COMBINATION| ::
              CombinationFamilyRank(COMBINATION[i]) < CombinationFamilyRank(COMBINATION[j])
  {
    DiversityRanks();
    CombinationRanks();
  }

  lemma DiversityRanks()
    ensures forall i | 0 <= i < |DIVERSITY| :: FamilyDiversityRank(DIVERSITY[i]) == i
  {
  }

  lemma CombinationRanks()
    ensures forall i | 0 <= i < |COMBINATION| :: CombinationFamilyRank(COMBINATION[i]) == if i < 5 then i else i + 5
  {
  }

  lemma UnlistedRanksLast(f: string)
    ensures f !in DIVERSITY ==> FamilyDiversityRank(f) == 99
    ensures f !in COMBINATION ==> CombinationFamilyRank(f) == 50
  {
    assert f !in DIVERSITY ==> forall i | 0 <= i < |DIVERSITY| :: f != DIVERSITY[i];
    assert f !in COMBINATION ==> forall i | 0 <= i < |COMBINATION| :: f != COMBINATION[i];
  }

  lemma CompareNodesLaws(rank: string -> nat, a: StrategyNode, b: StrategyNode)
    ensures NodesLe(rank)(a, b) || NodesLe(rank)(b, a)
    ensures NodesLe(rank)(a, b) && NodesLe(rank)(b, a) ==>
              a.family == b.family && a.actionId == b.actionId && a.id == b.id
  {
    CompareLaws(a.family, b.family);
    CompareLaws(a.actionId, b.actionId);
    CompareLaws(a.id, b.id);
    CompareLaws(b.family, a.family);
    CompareLaws(b.actionId, a.actionId);
    CompareLaws(b.id, a.id);
  }

  lemma CompareNodesTransitive(rank: string -> nat, a: StrategyNode, b: StrategyNode, c: StrategyNode)
    requires NodesLe(rank)(a, b) && NodesLe(rank)(b, c)
    ensures NodesLe(rank)(a, c)
  {
    CompareLaws(a.family, b.family);
    CompareLaws(b.family, c.family);
    CompareLaws(a.actionId, b.actionId);
    CompareLaws(b.actionId, c.actionId);
    if a.family == b.family && b.family == c.family {
      CompareLaws(a.family, c.family);
      if a.actionId == b.actionId && b.actionId == c.actionId {
        CompareLaws(a.actionId, c.actionId);
        CompareTransitive(a.id, b.id, c.id);
      } else {
        CompareTransitive(a.actionId, b.actionId, c.actionId);
        CompareLaws(a.actionId, c.actionId);
      }
    } else if rank(a.family) == rank(b.family) == rank(c.family) {
      CompareTransitive(a.family, b.family, c.family);
      CompareLaws(a.family, c.family);
    }
  }

  lemma NodesLeIsTotalPreorder(rank: string -> nat)
    ensures TotalPreorder(NodesLe(rank))
  {
    forall a, b ensures NodesLe(rank)(a, b) || NodesLe(rank)(b, a) {
      CompareNodesLaws(rank, a, b);
    }
    forall a, b, c | NodesLe(rank)(a, b) && NodesLe(rank)(b, c) ensures NodesLe(rank)(a, c) {
      CompareNodesTransitive(rank, a, b, c);
    }
  }

  /** Sorting nodes with pairwise distinct ids does not depend on their order. */
  lemma SortIsCanonical(rank: string -> nat, xs: seq<StrategyNode>, ys: seq<StrategyNode>)
    requires multiset(xs) == multiset(ys)
    requires forall a, b | a in xs && b in xs && a.id == b.id :: a == b
    ensures SortBy(NodesLe(rank), xs) == SortBy(NodesLe(rank), ys)
  {
    var le := NodesLe(rank);
    NodesLeIsTotalPreorder(rank);
    SortBySorts(le, xs);
    SortBySorts(le, ys);
    forall a, b | a in SortBy(le, xs) && b in SortBy(le, xs) && le(a, b) && le(b, a) ensures a == b {
      CompareNodesLaws(rank, a, b);
      assert a in multiset(SortBy(le, xs)) && b in multiset(SortBy(le, xs));
      assert a in multiset(xs) && b in multiset(xs);
    }
    SortedIsCanonical(le, SortBy(le, xs), SortBy(le, ys));
  }

  const NUL: char := 0 as char

  /** `args.join("\0")`: two nodes with equal keys count as the same strategy. */
  function ArgsKey(node: StrategyNode): string {
    Join(node.args, NUL)
  }

  /** The key stands for the arguments of nodes that have arguments, none containing a NUL. */
  lemma KeyDeterminesArgs(a: StrategyNode, b: StrategyNode)
    requires a.args != [] && b.args != []
    requires forall arg | arg in a.args :: NUL !in arg
    requires forall arg | arg in b.args :: NUL !in arg
    ensures ArgsKey(a) == ArgsKey(b) <==> a.args == b.args
  {
    JoinInjective(a.args, b.args, NUL);
  }

  function NormalizeSingle(node: StrategyNode): StrategyNode {
    if node.isCombined || node.components != [] then node
    else node.(components := [StrategyComponent(node.family, node.actionId, node.args)])
  }
}
