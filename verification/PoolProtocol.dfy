/** The worker pool of src/worker_pool.rs as a transition system. Every action is one atomic
    access to shared state: a flag read, a channel operation, a waiter registration. A run is
    any sequence of enabled actions, so a theorem about all runs is a theorem about all
    interleavings of the producer, the workers, the collector and a cancelling environment.

    A task is named by its position in the plan; the channels carry positions. */
module PoolProtocol {
  import opened Types
  import opened Counting

  datatype Task = Task(strategyIndex: nat, node: StrategyNode)

  /** `atomicRegister` makes `StopState::stopped` check the flag and register its waiter in one
      step. The source does it in two, which is `atomicRegister == false`. */
  datatype Config = Config(
    plan: seq<Task>, workers: nat, taskCap: nat, resultCap: nat, limit: nat, atomicRegister: bool)

  ghost predicate ValidConfig(c: Config) {
    c.workers >= 1 && c.taskCap >= 1 && c.resultCap >= 1
  }

  datatype Item = Item(pos: nat, worker: nat, result: ProbeResult)

  /** Program counter of `worker_loop`: the two flag checks, the locked `try_recv`, the empty
      branch, the cancel check, the backend call, the send. */
  datatype Worker =
    | Outer | Inner | Poll | Idle
    | Holding(pos: nat) | Running(pos: nat) | Sending(item: Item)
    | Exited

  /** Program counter of the producer: its own loop, then `enqueue`'s first check, then the
      polls of the `select!`. `Waiting` is the pending select, `woken` a delivered notification. */
  datatype Producer = AtLoop | Entering | Selecting | Checked | Waiting(woken: bool) | Done

  /** Program counter of `run`: the receive loop, the tail of `record_success` once the limit is
      reached, the join of the producer, the drain loop, the return. */
  datatype Collector =
    | Listen(draining: bool)
    | StoreFlag(draining: bool, item: Item)
    | WakeWaiters(draining: bool, item: Item)
    | AwaitProducer
    | Returned

  datatype State = State(
    sent: nat, producer: Producer, taskChan: seq<nat>, workers: seq<Worker>, resultChan: seq<Item>,
    collector: Collector, results: seq<Item>, discarded: seq<nat>,
    successCount: nat, stop: bool, cancelled: bool)

  /** `giveUp` and `quit` choose between the ready branches of a `select!`; `result` is what the
      backend answers, used only when worker `w` is in its backend call. */
  datatype Action =
    | Cancel
    | Produce(giveUp: bool)
    | Work(w: nat, result: ProbeResult)
    | Collect(quit: bool)

  function Init(c: Config): State {
    State(0, AtLoop, [], seq(c.workers, i => Outer), [], Listen(false), [], [], 0, false, false)
  }

  predicate AllExited(s: State) {
    forall w | 0 <= w < |s.workers| :: s.workers[w].Exited?
  }

  predicate Enabled(c: Config, s: State, a: Action) {
    match a
    case Cancel => !s.cancelled
    case Produce(giveUp) =>
      if s.producer.Waiting? then
        if giveUp then s.cancelled || s.producer.woken else |s.taskChan| < c.taskCap
      else !s.producer.Done? && !giveUp
    case Work(w, _) =>
      && w < |s.workers| && !s.workers[w].Exited?
      && (s.workers[w].Sending? ==> s.collector.Returned? || |s.resultChan| < c.resultCap)
    case Collect(quit) =>
      match s.collector
      case Listen(draining) => if quit then draining || s.cancelled else s.resultChan != [] || AllExited(s)
      case AwaitProducer => s.producer.Done? && !quit
      case Returned => false
      case _ => !quit
  }

  function Next(c: Config, s: State, a: Action): State
    requires Enabled(c, s, a)
  {
    match a
    case Cancel => s.(cancelled := true)
    case Produce(giveUp) => Produced(c, s, giveUp)
    case Work(w, result) => Worked(c, s, w, result)
    case Collect(quit) => Collected(c, s, quit)
  }

  function Produced(c: Config, s: State, giveUp: bool): State {
    match s.producer
    case AtLoop =>
      s.(producer := if s.sent >= |c.plan| || s.cancelled || s.stop then Done else Entering)
    case Entering =>
      s.(producer := if s.cancelled || s.stop then Done else Selecting)
    case Selecting =>
      s.(producer :=
        if s.cancelled || s.stop then Done else if c.atomicRegister then Waiting(false) else Checked)
    case Checked => s.(producer := Waiting(false))
    case Waiting(_) =>
      if giveUp then s.(producer := Done)
      else s.(producer := AtLoop, taskChan := s.taskChan + [s.sent], sent := s.sent + 1)
    case Done => s
  }

  /** Where worker `w`'s step takes it. */
  function NextPc(s: State, w: nat, result: ProbeResult): Worker
    requires w < |s.workers|
  {
    match s.workers[w]
    case Outer => if s.stop then Exited else Inner
    case Inner => if s.stop then Exited else Poll
    case Poll =>
      if s.taskChan != [] then Holding(s.taskChan[0]) else if s.producer.Done? then Exited else Idle
    case Idle => if s.cancelled then Exited else Inner
    case Holding(pos) => if s.cancelled then Exited else Running(pos)
    case Running(pos) => Sending(Item(pos, w, result))
    case Sending(_) => if s.collector.Returned? then Exited else Outer
    case Exited => Exited
  }

  /** A worker's step, field by field: a poll pops the task channel, a send appends to the result
      channel unless `run` has returned, and what a worker abandons is discarded. */
  function Worked(c: Config, s: State, w: nat, result: ProbeResult): State
    requires w < |s.workers|
  {
    var pc := s.workers[w];
    s.(workers := s.workers[w := NextPc(s, w, result)],
       taskChan := if pc.Poll? && s.taskChan != [] then s.taskChan[1..] else s.taskChan,
       resultChan := if pc.Sending? && !s.collector.Returned? then s.resultChan + [pc.item] else s.resultChan,
       discarded :=
         if pc.Holding? && s.cancelled then s.discarded + [pc.pos]
         else if pc.Sending? && s.collector.Returned? then s.discarded + [pc.item.pos]
         else s.discarded)
  }

  function Collected(c: Config, s: State, quit: bool): State
    requires s.collector.Listen? && !quit ==> s.resultChan != [] || AllExited(s)
  {
    match s.collector
    case Listen(draining) =>
      if quit || s.resultChan == [] then s.(collector := if draining then Returned else AwaitProducer)
      else Received(c, s.(resultChan := s.resultChan[1..]), draining, s.resultChan[0])
    case StoreFlag(draining, item) => s.(stop := true, collector := WakeWaiters(draining, item))
    case WakeWaiters(draining, item) =>
      s.(producer := if s.producer.Waiting? then Waiting(true) else s.producer,
         collector := Listen(draining), results := s.results + [item])
    case AwaitProducer => s.(collector := Listen(true))
    case Returned => s
  }

  /** A received result, up to and including the `fetch_add` of `record_success`. */
  function Received(c: Config, s: State, draining: bool, item: Item): State {
    if item.result.outcome.Success? && c.limit > 0 then
      if s.successCount + 1 >= c.limit
      then s.(successCount := s.successCount + 1, collector := StoreFlag(draining, item))
      else s.(successCount := s.successCount + 1, collector := Listen(draining), results := s.results + [item])
    else s.(collector := Listen(draining), results := s.results + [item])
  }

  // Runs

  predicate Runs(c: Config, schedule: seq<Action>)
    decreases |schedule|, 0
  {
    schedule == [] ||
    (var n := |schedule| - 1;
     Runs(c, schedule[..n]) && Enabled(c, After(c, schedule[..n]), schedule[n]))
  }

  function After(c: Config, schedule: seq<Action>): State
    requires Runs(c, schedule)
    decreases |schedule|, 1
  {
    if schedule == [] then Init(c)
    else
      var n := |schedule| - 1;
      Next(c, After(c, schedule[..n]), schedule[n])
  }

  // Observations

  function Iota(n: nat): seq<nat> { seq(n, i => i) }

  function Positions(items: seq<Item>): (r: seq<nat>)
    ensures |r| == |items|
    ensures forall i | 0 <= i < |r| :: r[i] == items[i].pos
  {
    if items == [] then [] else Positions(items[..|items| - 1]) + [items[|items| - 1].pos]
  }

  function IsSuccess(): Item -> bool {
    (item: Item) => item.result.outcome.Success?
  }

  function Equals(p: nat): nat -> bool {
    (x: nat) => x == p
  }

  function IsFor(p: nat): Item -> bool {
    (item: Item) => item.pos == p
  }

  function Successes(items: seq<Item>): nat {
    Count(items, IsSuccess())
  }

  /** How often position `p` occurs. */
  function Tally(xs: seq<nat>, p: nat): nat {
    Count(xs, Equals(p))
  }

  /** How often position `p` occurs in `items`. */
  function TallyItems(items: seq<Item>, p: nat): nat {
    Count(items, IsFor(p))
  }

  function Holds(w: Worker, p: nat): nat {
    match w
    case Holding(pos) => if pos == p then 1 else 0
    case Running(pos) => if pos == p then 1 else 0
    case Sending(item) => if item.pos == p then 1 else 0
    case _ => 0
  }

  function AllHold(ws: seq<Worker>, p: nat): nat {
    if ws == [] then 0 else Holds(ws[0], p) + AllHold(ws[1..], p)
  }

  function Pending(col: Collector): seq<Item> {
    if col.StoreFlag? || col.WakeWaiters? then [col.item] else []
  }

  function Sum(ws: seq<Worker>, f: Worker -> nat): nat {
    if ws == [] then 0 else f(ws[0]) + Sum(ws[1..], f)
  }

  lemma {:induction false} SumUpdate(ws: seq<Worker>, f: Worker -> nat, w: nat, x: Worker)
    requires w < |ws|
    ensures Sum(ws[w := x], f) + f(ws[w]) == Sum(ws, f) + f(x)
  {
    if w == 0 {
      assert ws[w := x][1..] == ws[1..];
    } else {
      assert ws[w := x][1..] == ws[1..][w - 1 := x];
      SumUpdate(ws[1..], f, w - 1, x);
    }
  }

  lemma {:induction false} AllHoldUpdate(ws: seq<Worker>, w: nat, x: Worker, p: nat)
    requires w < |ws|
    ensures AllHold(ws[w := x], p) + Holds(ws[w], p) == AllHold(ws, p) + Holds(x, p)
  {
    if w == 0 {
      assert ws[w := x][1..] == ws[1..];
    } else {
      assert ws[w := x][1..] == ws[1..][w - 1 := x];
      AllHoldUpdate(ws[1..], w - 1, x, p);
    }
  }

  lemma {:induction false} NothingHeld(ws: seq<Worker>, p: nat)
    requires forall w | 0 <= w < |ws| :: !ws[w].Holding? && !ws[w].Running? && !ws[w].Sending?
    ensures AllHold(ws, p) == 0
  {
    if ws != [] {
      NothingHeld(ws[1..], p);
    }
  }

  lemma {:induction false} SumBound(ws: seq<Worker>, f: Worker -> nat, k: nat)
    requires forall x :: f(x) <= k
    ensures Sum(ws, f) <= k * |ws|
  {
    if ws != [] {
      SumBound(ws[1..], f, k);
      assert k * |ws| == k + k * |ws[1..]|;
    }
  }

  lemma TallyAppend(xs: seq<nat>, x: nat, p: nat)
    ensures Tally(xs + [x], p) == Tally(xs, p) + if x == p then 1 else 0
  {
    CountAppend(xs, x, Equals(p));
  }

  lemma TallyPop(xs: seq<nat>, p: nat)
    requires xs != []
    ensures Tally(xs, p) == Tally(xs[1..], p) + if xs[0] == p then 1 else 0
  {
    CountRemove(xs, 0, Equals(p));
    assert xs[..0] + xs[1..] == xs[1..];
  }

  lemma {:induction false} TallyIsMultiplicity(xs: seq<nat>, p: nat)
    ensures Tally(xs, p) == multiset(xs)[p]
  {
    if xs != [] {
      TallyIsMultiplicity(xs[..|xs| - 1], p);
      assert xs == xs[..|xs| - 1] + [xs[|xs| - 1]];
    }
  }

  lemma TallyItemsAppend(items: seq<Item>, item: Item, p: nat)
    ensures TallyItems(items + [item], p) == TallyItems(items, p) + if item.pos == p then 1 else 0
  {
    CountAppend(items, item, IsFor(p));
  }

  lemma TallyItemsPop(items: seq<Item>, p: nat)
    requires items != []
    ensures TallyItems(items, p) == TallyItems(items[1..], p) + if items[0].pos == p then 1 else 0
  {
    CountRemove(items, 0, IsFor(p));
    assert items[..0] + items[1..] == items[1..];
  }

  lemma {:induction false} TallyItemsIsMultiplicity(items: seq<Item>, p: nat)
    ensures TallyItems(items, p) == multiset(Positions(items))[p]
  {
    if items != [] {
      TallyItemsIsMultiplicity(items[..|items| - 1], p);
    }
  }

  lemma SuccessesAppend(items: seq<Item>, item: Item)
    ensures Successes(items + [item]) == Successes(items) + if item.result.outcome.Success? then 1 else 0
  {
    CountAppend(items, item, IsSuccess());
  }
}
