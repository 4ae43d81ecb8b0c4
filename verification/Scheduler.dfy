/** `Scheduler::run_graph_with_bayes` (src/scheduler.rs): the plan the producer sends, and the fold
    of the returned results into the posteriors. */
module Scheduler {
  import opened Types
  import opened PoolProtocol
  import opened PoolSafety
  import opened PoolResults
  import opened Counting
  import opened Bayes

  /** The producer's numbering: task `i` is the `i`-th ordered node. */
  function PlanOf(nodes: seq<StrategyNode>): (plan: seq<Task>)
    ensures |plan| == |nodes|
    ensures forall i | 0 <= i < |plan| :: plan[i].strategyIndex == i && plan[i].node == nodes[i]
  {
    seq(|nodes|, i requires 0 <= i < |nodes| => Task(i, nodes[i]))
  }

  lemma PlanIsIncreasing(nodes: seq<StrategyNode>, c: Config)
    requires c.plan == PlanOf(nodes)
    ensures IncreasingPlan(c)
  {
  }

  datatype StrategyRunResult = StrategyRunResult(node: StrategyNode, result: ProbeResult, workerId: nat)

  function RecordOf(c: Config, pos: nat, result: ProbeResult): Record
    requires pos < |c.plan|
  {
    Record(c.plan[pos].node.id, c.plan[pos].node.prior, result)
  }

  ghost predicate InPlan(c: Config, items: seq<Item>) {
    forall i | 0 <= i < |items| :: items[i].pos < |c.plan|
  }

  function Records(c: Config, items: seq<Item>): (r: seq<Record>)
    requires InPlan(c, items)
  {
    seq(|items|, i requires 0 <= i < |items| && InPlan(c, items) => RecordOf(c, items[i].pos, items[i].result))
  }

  /** The results in the order received, and the posteriors after folding each of them in. */
  method FinalizeResults(c: Config, items: seq<Item>, bayes: BayesianState) returns (out: seq<StrategyRunResult>)
    requires InPlan(c, items)
    modifies bayes
    ensures bayes.posteriors == Fold(old(bayes.posteriors), Records(c, items))
    ensures |out| == |items|
    ensures forall i | 0 <= i < |out| ::
              out[i] == StrategyRunResult(c.plan[items[i].pos].node, items[i].result, items[i].worker)
  {
    out := [];
    for k := 0 to |items|
      invariant |out| == k
      invariant bayes.posteriors == Fold(old(bayes.posteriors), Records(c, items)[..k])
      invariant forall i | 0 <= i < k ::
                  out[i] == StrategyRunResult(c.plan[items[i].pos].node, items[i].result, items[i].worker)
    {
      var item := items[k];
      var node := c.plan[item.pos].node;
      if !Infrastructure(item.result) {
        bayes.Update(node.id, node.prior, item.result);
      }
      assert Records(c, items)[..k + 1][..k] == Records(c, items)[..k];
      out := out + [StrategyRunResult(node, item.result, item.worker)];
    }
    assert Records(c, items)[..|items|] == Records(c, items);
  }

  // The posteriors after all results, counted over the results themselves

  /** The result of a strategy that counts: not of the infrastructure. */
  predicate Counts(c: Config, key: string, item: Item) {
    && item.pos < |c.plan| && c.plan[item.pos].node.id == key
    && item.result.failureKind != Some(FailureKind.InfrastructureFailure)
  }

  function WinsOf(c: Config, key: string): Item -> bool {
    (item: Item) => Counts(c, key, item) && item.result.outcome == Success
  }

  function TimeoutsOf(c: Config, key: string): Item -> bool {
    (item: Item) => Counts(c, key, item) && item.result.outcome == Timeout
  }

  function LossesOf(c: Config, key: string): Item -> bool {
    (item: Item) => Counts(c, key, item)
      && item.result.outcome !in {Success, Timeout, ProbeOutcome.Cancelled}
  }

  lemma RecordMeans(c: Config, key: string, item: Item)
    requires item.pos < |c.plan|
    ensures var rec := RecordOf(c, item.pos, item.result);
            && (Relevant(rec, key) <==> Counts(c, key, item))
            && rec.prior == c.plan[item.pos].node.prior
            && Succeeded(key)(rec) == WinsOf(c, key)(item)
            && TimedOut(key)(rec) == TimeoutsOf(c, key)(item)
            && OtherFailure(key)(rec) == LossesOf(c, key)(item)
  {
  }

  lemma RecordsLast(c: Config, items: seq<Item>)
    requires InPlan(c, items) && items != []
    ensures var init, last := items[..|items| - 1], items[|items| - 1];
            && InPlan(c, init) && Records(c, items) == Records(c, init) + [RecordOf(c, last.pos, last.result)]
  {
  }

  lemma {:induction false} RecordsCount(c: Config, items: seq<Item>, key: string)
    requires InPlan(c, items)
    ensures Count(Records(c, items), Succeeded(key)) == Count(items, WinsOf(c, key))
    ensures Count(Records(c, items), TimedOut(key)) == Count(items, TimeoutsOf(c, key))
    ensures Count(Records(c, items), OtherFailure(key)) == Count(items, LossesOf(c, key))
  {
    if items != [] {
      var init, last := items[..|items| - 1], items[|items| - 1];
      var rec := RecordOf(c, last.pos, last.result);
      RecordsLast(c, items);
      RecordsCount(c, init, key);
      RecordMeans(c, key, last);
      CountAppend(Records(c, init), rec, Succeeded(key));
      CountAppend(Records(c, init), rec, TimedOut(key));
      CountAppend(Records(c, init), rec, OtherFailure(key));
    }
  }

  /** The first result of a strategy that counts. */
  ghost predicate FirstCounted(c: Config, key: string, items: seq<Item>, i: nat) {
    i < |items| && Counts(c, key, items[i]) && forall j | 0 <= j < i :: !Counts(c, key, items[j])
  }

  lemma {:induction false} StartOfRecords(c: Config, items: seq<Item>, m: map<string, Posterior>, key: string)
    requires InPlan(c, items) && key !in m
    ensures (forall i | 0 <= i < |items| :: !Counts(c, key, items[i])) ==> Start(m, Records(c, items), key).None?
    ensures forall i: nat | FirstCounted(c, key, items, i) ::
              Start(m, Records(c, items), key)
              == Some(Posterior(c.plan[items[i].pos].node.prior.0, c.plan[items[i].pos].node.prior.1, 0))
  {
    if items != [] {
      var init, last := items[..|items| - 1], items[|items| - 1];
      RecordsLast(c, items);
      StartOfRecords(c, init, m, key);
      RecordMeans(c, key, last);
      assert Records(c, items)[..|items| - 1] == Records(c, init);
      forall i: nat | FirstCounted(c, key, items, i) && i < |init| ensures FirstCounted(c, key, init, i) {
      }
    }
  }

  /** Where a strategy ends up: from its posterior, or else from the prior of its first result that
      counts, alpha grows by its successes, beta by its other failures and by 0.7 for each timeout. A
      strategy without either has no posterior. */
  lemma FinalPosteriors(c: Config, items: seq<Item>, m: map<string, Posterior>, key: string)
    requires InPlan(c, items)
    ensures var t := Fold(m, Records(c, items));
            var wins, timeouts, losses :=
              Count(items, WinsOf(c, key)), Count(items, TimeoutsOf(c, key)), Count(items, LossesOf(c, key));
            && (key in m ==>
                  && key in t && t[key].alpha == m[key].alpha + wins as real
                  && t[key].beta == m[key].beta + 0.7 * timeouts as real + losses as real
                  && t[key].tests == m[key].tests + wins + timeouts + losses)
            && (key !in m && (forall i | 0 <= i < |items| :: !Counts(c, key, items[i])) ==> key !in t)
            && (key !in m ==> forall i: nat | FirstCounted(c, key, items, i) ::
                  var prior := c.plan[items[i].pos].node.prior;
                  && key in t && t[key].alpha == prior.0 + wins as real
                  && t[key].beta == prior.1 + 0.7 * timeouts as real + losses as real
                  && t[key].tests == wins + timeouts + losses)
  {
    FoldClosedForm(m, Records(c, items), key);
    RecordsCount(c, items, key);
    if key in m {
      StartIsPrior(m, Records(c, items), key);
    } else {
      StartOfRecords(c, items, m, key);
    }
  }

  /** What running the plan sequentially feeds to the posteriors. */
  function SequentialRecords(c: Config, f: nat -> ProbeResult): seq<Record> {
    seq(|c.plan|, i requires 0 <= i < |c.plan| => RecordOf(c, i, f(i)))
  }

  /** Results that are the first `k` of the sequential run are recorded as its first `k`. */
  lemma RecordsOfPrefix(c: Config, f: nat -> ProbeResult, out: seq<Item>, k: nat)
    requires k <= |c.plan| && Outcomes(out) == SequentialRun(c, f)[..k]
    ensures InPlan(c, out) && Records(c, out) == SequentialRecords(c, f)[..k]
  {
    assert |Outcomes(out)| == |out| && |SequentialRun(c, f)| == |c.plan|;
    forall i | 0 <= i < |out| ensures out[i].pos == i && out[i].result == f(i) {
      assert Outcomes(out)[i] == SequentialRun(c, f)[i];
    }
  }

  /** Schedule independence end to end: every uncancelled interleaving leaves the posteriors that
      the sequential map and fold over the tasks it took leaves, limit or not. */
  lemma PosteriorsAreSequentialPrefix(
    c: Config, f: nat -> ProbeResult, schedule: seq<Action>, m: map<string, Posterior>)
    requires ValidConfig(c) && IncreasingPlan(c)
    requires Runs(c, schedule) && Deterministic(c, f, schedule)
    requires After(c, schedule).collector.Returned? && !After(c, schedule).cancelled
    ensures var out := SortResults(c, After(c, schedule).results); var k := Taken(After(c, schedule));
            && 0 <= k <= |c.plan| && InPlan(c, out)
            && Fold(m, Records(c, out)) == Fold(m, SequentialRecords(c, f)[..k])
  {
    RunIsSequentialPrefix(c, f, schedule);
    RecordsOfPrefix(c, f, SortResults(c, After(c, schedule).results), Taken(After(c, schedule)));
  }

  /** Without a limit these are the posteriors of the whole plan. */
  lemma PosteriorsAreSequential(
    c: Config, f: nat -> ProbeResult, schedule: seq<Action>, m: map<string, Posterior>)
    requires ValidConfig(c) && IncreasingPlan(c) && c.limit == 0
    requires Runs(c, schedule) && Deterministic(c, f, schedule)
    requires After(c, schedule).collector.Returned? && !After(c, schedule).cancelled
    ensures var out := SortResults(c, After(c, schedule).results);
            && InPlan(c, out)
            && Fold(m, Records(c, out)) == Fold(m, SequentialRecords(c, f))
  {
    PosteriorsAreSequentialPrefix(c, f, schedule, m);
    RunIsSequentialPrefix(c, f, schedule);
    assert SequentialRecords(c, f)[..|c.plan|] == SequentialRecords(c, f);
  }
}
