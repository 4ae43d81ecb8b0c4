/** The results `run` returns: the recorded items, sorted by strategy index. */
module PoolResults {
  import opened Types
  import opened Sorting
  import opened PoolProtocol
  import opened PoolSafety

  function IndexOf(c: Config, item: Item): nat {
    if item.pos < |c.plan| then c.plan[item.pos].strategyIndex else 0
  }

  function ByIndex(c: Config): (Item, Item) -> bool {
    (a: Item, b: Item) => IndexOf(c, a) <= IndexOf(c, b)
  }

  /** `results.sort_by_key(|item| item.strategy_index)`. */
  function SortResults(c: Config, results: seq<Item>): seq<Item> {
    SortBy(ByIndex(c), results)
  }

  /** The scheduler numbers its tasks in plan order; `run_tasks` accepts any numbering. */
  ghost predicate IncreasingPlan(c: Config) {
    forall i, j | 0 <= i < j < |c.plan| :: c.plan[i].strategyIndex < c.plan[j].strategyIndex
  }

  lemma {:induction false} TallyInsert(le: (Item, Item) -> bool, s: seq<Item>, x: Item, p: nat)
    ensures TallyItems(Insert(le, s, x), p) == TallyItems(s, p) + if x.pos == p then 1 else 0
  {
    if s == [] {
      TallyItemsAppend([], x, p);
    } else if le(s[|s| - 1], x) {
      TallyItemsAppend(s, x, p);
    } else {
      var init, last := s[..|s| - 1], s[|s| - 1];
      TallyInsert(le, init, x, p);
      TallyItemsAppend(Insert(le, init, x), last, p);
    }
  }

  lemma {:induction false} TallySorted(le: (Item, Item) -> bool, xs: seq<Item>, p: nat)
    ensures TallyItems(SortBy(le, xs), p) == TallyItems(xs, p)
  {
    if xs != [] {
      TallySorted(le, xs[..|xs| - 1], p);
      TallyInsert(le, SortBy(le, xs[..|xs| - 1]), xs[|xs| - 1], p);
    }
  }

  lemma IotaMultiset(k: nat, p: nat)
    ensures multiset(Iota(k))[p] == if p < k then 1 else 0
  {
    TallyOfRange(Iota(k), 0, p);
    TallyIsMultiplicity(Iota(k), p);
  }

  /** Whatever the numbering, the returned results are ordered by index and their positions are
      those of the recorded results, each exactly as often. */
  lemma SortedByIndex(c: Config, results: seq<Item>)
    ensures var out := SortResults(c, results);
            && (forall i, j | 0 <= i < j < |out| :: IndexOf(c, out[i]) <= IndexOf(c, out[j]))
            && multiset(out) == multiset(results)
            && forall p: nat :: TallyItems(out, p) == TallyItems(results, p)
  {
    var le := ByIndex(c);
    SortBySorts(le, results);
    forall i, j | 0 <= i < j < |SortResults(c, results)|
      ensures IndexOf(c, SortResults(c, results)[i]) <= IndexOf(c, SortResults(c, results)[j])
    {
      assert le(SortResults(c, results)[i], SortResults(c, results)[j]);
    }
    forall p: nat ensures TallyItems(SortResults(c, results), p) == TallyItems(results, p) {
      TallySorted(le, results, p);
    }
  }

  lemma CoveringPrefix(items: seq<Item>, k: nat)
    requires forall p: nat :: TallyItems(items, p) == if p < k then 1 else 0
    ensures multiset(Positions(items)) == multiset(Iota(k))
  {
    forall p: nat ensures multiset(Positions(items))[p] == multiset(Iota(k))[p] {
      TallyItemsIsMultiplicity(items, p);
      IotaMultiset(k, p);
    }
  }

  lemma IndexOrderIsPlanOrder(c: Config, out: seq<Item>, i: nat, j: nat)
    requires IncreasingPlan(c) && i < j < |out| && out[i].pos < |c.plan| && out[j].pos < |c.plan|
    requires IndexOf(c, out[i]) <= IndexOf(c, out[j])
    ensures Positions(out)[i] <= Positions(out)[j]
  {
  }

  /** Recorded results that cover a prefix of an increasing plan are returned in plan order. */
  lemma SortedPrefix(c: Config, results: seq<Item>, k: nat)
    requires IncreasingPlan(c) && k <= |c.plan|
    requires forall p: nat :: TallyItems(results, p) == if p < k then 1 else 0
    ensures Positions(SortResults(c, results)) == Iota(k)
  {
    var out := SortResults(c, results);
    SortedByIndex(c, results);
    CoveringPrefix(out, k);
    var ps := Positions(out);
    forall i | 0 <= i < |out| ensures out[i].pos < k {
      assert ps[i] in multiset(ps);
      IotaMultiset(k, ps[i]);
    }
    var le := (a: nat, b: nat) => a <= b;
    forall i, j | 0 <= i < j < |ps| ensures le(ps[i], ps[j]) {
      IndexOrderIsPlanOrder(c, out, i, j);
    }
    SortedIsCanonical(le, ps, Iota(k));
  }

  /** The main safety theorem: whatever the interleaving, an uncancelled run over an increasing
      plan returns the results of the tasks 0, 1, ..., k - 1 in that order. */
  lemma ReturnsPlanPrefix(c: Config, schedule: seq<Action>)
    requires ValidConfig(c) && IncreasingPlan(c) && Runs(c, schedule)
    requires After(c, schedule).collector.Returned? && !After(c, schedule).cancelled
    ensures var s := After(c, schedule); var k := Taken(s);
            && 0 <= k <= |c.plan|
            && Positions(SortResults(c, s.results)) == Iota(k)
            && (c.limit == 0 ==> k == |c.plan|)
            && (k < |c.plan| ==> Successes(s.results) >= c.limit > 0)
  {
    PrefixRefinement(c, schedule);
    SortedPrefix(c, After(c, schedule).results, Taken(After(c, schedule)));
  }

  // Schedule independence

  /** The backend's answers depend on the task alone: task `p` is answered `f(p)`. */
  predicate Answered(f: nat -> ProbeResult, s: State, a: Action) {
    a.Work? && a.w < |s.workers| && s.workers[a.w].Running? ==> a.result == f(s.workers[a.w].pos)
  }

  predicate Deterministic(c: Config, f: nat -> ProbeResult, schedule: seq<Action>)
    requires Runs(c, schedule)
  {
    schedule == [] ||
    (var n := |schedule| - 1;
     Deterministic(c, f, schedule[..n]) && Answered(f, After(c, schedule[..n]), schedule[n]))
  }

  predicate Faithful(f: nat -> ProbeResult, s: State) {
    && (forall i | 0 <= i < |s.resultChan| :: s.resultChan[i].result == f(s.resultChan[i].pos))
    && (forall i | 0 <= i < |s.results| :: s.results[i].result == f(s.results[i].pos))
    && (forall w | 0 <= w < |s.workers| && s.workers[w].Sending? ::
          s.workers[w].item.result == f(s.workers[w].item.pos))
    && (Pending(s.collector) != [] ==> s.collector.item.result == f(s.collector.item.pos))
  }

  lemma FaithfulByCollector(c: Config, f: nat -> ProbeResult, s: State, quit: bool)
    requires Faithful(f, s) && Enabled(c, s, Collect(quit))
    ensures Faithful(f, Collected(c, s, quit))
  {
    var t := Collected(c, s, quit);
    assert t.workers == s.workers;
    assert t.resultChan == s.resultChan || (s.resultChan != [] && t.resultChan == s.resultChan[1..]);
  }

  lemma FaithfulStep(c: Config, f: nat -> ProbeResult, s: State, a: Action)
    requires Faithful(f, s) && Enabled(c, s, a) && Answered(f, s, a)
    ensures Faithful(f, Next(c, s, a))
  {
    match a
    case Cancel =>
    case Produce(giveUp) =>
      var t := Produced(c, s, giveUp);
      assert t.workers == s.workers && t.results == s.results && t.resultChan == s.resultChan;
    case Work(w, _) =>
    case Collect(quit) => FaithfulByCollector(c, f, s, quit);
  }

  lemma {:induction false} FaithfulAlways(c: Config, f: nat -> ProbeResult, schedule: seq<Action>)
    requires Runs(c, schedule) && Deterministic(c, f, schedule)
    ensures Faithful(f, After(c, schedule))
  {
    if schedule != [] {
      var n := |schedule| - 1;
      FaithfulAlways(c, f, schedule[..n]);
      FaithfulStep(c, f, After(c, schedule[..n]), schedule[n]);
    }
  }

  /** What of the results does not name a worker. */
  function Outcomes(items: seq<Item>): (r: seq<(nat, ProbeResult)>) {
    seq(|items|, i requires 0 <= i < |items| => (items[i].pos, items[i].result))
  }

  /** The sequential run: the backend mapped over the plan, in order. */
  function SequentialRun(c: Config, f: nat -> ProbeResult): seq<(nat, ProbeResult)> {
    seq(|c.plan|, i requires 0 <= i => (i, f(i)))
  }

  /** What an uncancelled run returns, limit or not: the first results of the sequential run, up to
      the worker that ran each task. */
  lemma RunIsSequentialPrefix(c: Config, f: nat -> ProbeResult, schedule: seq<Action>)
    requires ValidConfig(c) && IncreasingPlan(c)
    requires Runs(c, schedule) && Deterministic(c, f, schedule)
    requires After(c, schedule).collector.Returned? && !After(c, schedule).cancelled
    ensures var s := After(c, schedule); var k := Taken(s);
            && 0 <= k <= |c.plan|
            && Outcomes(SortResults(c, s.results)) == SequentialRun(c, f)[..k]
            && (c.limit == 0 ==> k == |c.plan|)
            && (k < |c.plan| ==> Successes(s.results) >= c.limit > 0)
  {
    ReturnsPlanPrefix(c, schedule);
    FaithfulAlways(c, f, schedule);
    FaithfulOutcomes(c, f, After(c, schedule).results, Taken(After(c, schedule)));
  }

  lemma FaithfulOutcomes(c: Config, f: nat -> ProbeResult, results: seq<Item>, k: nat)
    requires k <= |c.plan| && Positions(SortResults(c, results)) == Iota(k)
    requires forall i | 0 <= i < |results| :: results[i].result == f(results[i].pos)
    ensures Outcomes(SortResults(c, results)) == SequentialRun(c, f)[..k]
  {
    var out := SortResults(c, results);
    SortedByIndex(c, results);
    forall i | 0 <= i < |out| ensures out[i].result == f(out[i].pos) {
      assert out[i] in multiset(out);
      assert out[i] in results;
    }
    OutcomesOf(c, f, out, k);
  }

  lemma OutcomesOf(c: Config, f: nat -> ProbeResult, out: seq<Item>, k: nat)
    requires k <= |c.plan| && Positions(out) == Iota(k)
    requires forall i | 0 <= i < |out| :: out[i].result == f(out[i].pos)
    ensures Outcomes(out) == SequentialRun(c, f)[..k]
  {
    assert |Positions(out)| == k;
    forall i | 0 <= i < |out| ensures (out[i].pos, out[i].result) == (i, f(i)) {
      assert Positions(out)[i] == i;
    }
  }

  /** Without a limit that is the whole sequential run. */
  lemma RunIsSequential(c: Config, f: nat -> ProbeResult, schedule: seq<Action>)
    requires ValidConfig(c) && IncreasingPlan(c) && c.limit == 0
    requires Runs(c, schedule) && Deterministic(c, f, schedule)
    requires After(c, schedule).collector.Returned? && !After(c, schedule).cancelled
    ensures Outcomes(SortResults(c, After(c, schedule).results)) == SequentialRun(c, f)
  {
    RunIsSequentialPrefix(c, f, schedule);
    assert SequentialRun(c, f)[..|c.plan|] == SequentialRun(c, f);
  }

  /** Of two uncancelled runs, scheduled however, one returns the first results of the other. */
  lemma RunsAgree(c: Config, f: nat -> ProbeResult, one: seq<Action>, other: seq<Action>)
    requires ValidConfig(c) && IncreasingPlan(c)
    ensures ReturnsWith(c, f, one) && ReturnsWith(c, f, other) ==>
              var x, y := Outcomes(SortResults(c, After(c, one).results)), Outcomes(SortResults(c, After(c, other).results));
              x <= y || y <= x
  {
    if ReturnsWith(c, f, one) && ReturnsWith(c, f, other) {
      RunIsSequentialPrefix(c, f, one);
      RunIsSequentialPrefix(c, f, other);
    }
  }

  /** An uncancelled run of the backend `f` that has returned. */
  predicate ReturnsWith(c: Config, f: nat -> ProbeResult, schedule: seq<Action>) {
    && Runs(c, schedule) && Deterministic(c, f, schedule)
    && After(c, schedule).collector.Returned? && !After(c, schedule).cancelled
  }
}
