/** Invariants of the worker pool over every interleaving, and what they say of a run that has
    returned. Nothing here assumes that the flag check and the waiter registration are atomic. */
module PoolSafety {
  import opened Types
  import opened PoolProtocol

  // The invariant, one concern at a time.

  function InCollector(col: Collector, p: nat): nat {
    match col
    case StoreFlag(_, item) => if item.pos == p then 1 else 0
    case WakeWaiters(_, item) => if item.pos == p then 1 else 0
    case _ => 0
  }

  /** In how many places task `p` is: the task channel, the workers' hands, the result channel,
      the collector's hand, the recorded results, the discarded tasks. */
  function Places(s: State, p: nat): nat {
    Tally(s.taskChan, p) + AllHold(s.workers, p) + TallyItems(s.resultChan, p)
    + InCollector(s.collector, p) + TallyItems(s.results, p) + Tally(s.discarded, p)
  }

  /** Conservation: every sent task is in exactly one place, and no other task is anywhere. */
  ghost predicate Conserved(s: State) {
    forall p: nat :: Places(s, p) == if p < s.sent then 1 else 0
  }

  ghost predicate Shape(c: Config, s: State) {
    && |s.workers| == c.workers
    && s.sent <= |c.plan|
    && (!s.producer.AtLoop? && !s.producer.Done? ==> s.sent < |c.plan|)
    && |s.taskChan| <= c.taskCap
    && |s.resultChan| <= c.resultCap
    && (c.atomicRegister ==> !s.producer.Checked?)
  }

  /** The task channel is first in, first out: it holds the latest sent tasks in order. */
  ghost predicate Fifo(s: State) {
    && |s.taskChan| <= s.sent
    && (forall i | 0 <= i < |s.taskChan| :: s.taskChan[i] == s.sent - |s.taskChan| + i)
  }

  /** `success_count` counts recorded successes, and the flag is up only at the limit. */
  ghost predicate Counted(c: Config, s: State) {
    && (c.limit > 0 ==> s.successCount == Successes(s.results) + |Pending(s.collector)|)
    && (c.limit == 0 ==> s.successCount == 0 && Pending(s.collector) == [])
    && (Pending(s.collector) != [] ==>
          s.collector.item.result.outcome.Success? && s.successCount >= c.limit > 0)
    && (s.stop ==> s.successCount >= c.limit > 0)
    && (s.collector.WakeWaiters? ==> s.stop)
    && (c.limit > 0 && !s.stop ==> s.successCount <= c.limit)
    && (c.limit > 0 && !s.stop && Pending(s.collector) == [] ==> s.successCount < c.limit)
  }

  /** Why an actor that has finished did finish. */
  ghost predicate Finished(c: Config, s: State) {
    && (forall w | 0 <= w < |s.workers| && s.workers[w].Exited? ::
          s.cancelled || s.stop || (s.producer.Done? && s.taskChan == []))
    && (s.producer.Done? ==> s.cancelled || s.stop || s.sent == |c.plan|)
    && (s.producer == Waiting(true) ==> s.stop)
    && (s.collector != AwaitProducer && (s.collector == Returned || s.collector.draining) ==> s.producer.Done?)
  }

  /** Without cancellation nothing is discarded and the collector leaves its first loop only
      when every worker has exited and the result channel is empty. */
  ghost predicate Orderly(s: State) {
    s.cancelled ||
    (&& s.discarded == []
     && (s.collector != Listen(false) && (Pending(s.collector) == [] || s.collector.draining) ==>
           AllExited(s) && s.resultChan == [] && Pending(s.collector) == []))
  }

  /** A worker that may still contribute a result after the flag is up. */
  function Contributes(w: Worker): nat {
    if w.Poll? || w.Holding? || w.Running? || w.Sending? then 1 else 0
  }

  ghost predicate Bounded(c: Config, s: State) {
    s.stop ==>
      Successes(s.results) + |Pending(s.collector)| + |s.resultChan| + Sum(s.workers, Contributes)
        <= c.limit + c.resultCap + c.workers
  }

  ghost predicate Inv(c: Config, s: State) {
    Shape(c, s) && Conserved(s) && Fifo(s) && Counted(c, s) && Finished(c, s) && Orderly(s) && Bounded(c, s)
  }

  // Preservation

  lemma InitInv(c: Config)
    ensures Inv(c, Init(c))
  {
    forall p: nat ensures Places(Init(c), p) == 0 {
      NothingHeld(Init(c).workers, p);
    }
  }

  lemma ShapeStep(c: Config, s: State, a: Action)
    requires Shape(c, s) && Enabled(c, s, a)
    ensures Shape(c, Next(c, s, a))
  {
  }

  lemma FifoStep(c: Config, s: State, a: Action)
    requires Fifo(s) && Enabled(c, s, a)
    ensures Fifo(Next(c, s, a))
  {
  }

  lemma CountedByCollector(c: Config, s: State, quit: bool)
    requires Counted(c, s) && Enabled(c, s, Collect(quit))
    ensures Counted(c, Collected(c, s, quit))
  {
    if Pending(s.collector) != [] {
      SuccessesAppend(s.results, s.collector.item);
    } else if s.resultChan != [] {
      SuccessesAppend(s.results, s.resultChan[0]);
    }
  }

  lemma CountedStep(c: Config, s: State, a: Action)
    requires Counted(c, s) && Enabled(c, s, a)
    ensures Counted(c, Next(c, s, a))
  {
    match a
    case Collect(quit) => CountedByCollector(c, s, quit);
    case _ =>
      var t := Next(c, s, a);
      assert t.collector == s.collector && t.results == s.results && t.stop == s.stop
          && t.successCount == s.successCount;
  }

  lemma FinishedByWorker(c: Config, s: State, w: nat, result: ProbeResult)
    requires Finished(c, s) && Orderly(s) && Enabled(c, s, Work(w, result))
    ensures Finished(c, Worked(c, s, w, result))
  {
  }

  lemma FinishedByProducer(c: Config, s: State, giveUp: bool)
    requires Shape(c, s) && Finished(c, s) && Enabled(c, s, Produce(giveUp))
    ensures Finished(c, Produced(c, s, giveUp))
  {
    var t := Produced(c, s, giveUp);
    assert t.collector == s.collector && t.workers == s.workers && t.stop == s.stop && t.cancelled == s.cancelled;
    assert t.taskChan == s.taskChan || !s.producer.Done?;
  }

  lemma FinishedByCollector(c: Config, s: State, quit: bool)
    requires Counted(c, s) && Finished(c, s) && Enabled(c, s, Collect(quit))
    ensures Finished(c, Collected(c, s, quit))
  {
    var t := Collected(c, s, quit);
    assert t.workers == s.workers && t.taskChan == s.taskChan && t.sent == s.sent
        && t.cancelled == s.cancelled && (s.stop ==> t.stop) && t.producer.Done? == s.producer.Done?;
  }

  lemma FinishedStep(c: Config, s: State, a: Action)
    requires Shape(c, s) && Counted(c, s) && Finished(c, s) && Orderly(s) && Enabled(c, s, a)
    ensures Finished(c, Next(c, s, a))
  {
    match a
    case Cancel =>
    case Produce(giveUp) => FinishedByProducer(c, s, giveUp);
    case Work(w, result) => FinishedByWorker(c, s, w, result);
    case Collect(quit) => FinishedByCollector(c, s, quit);
  }

  lemma OrderlyStep(c: Config, s: State, a: Action)
    requires Orderly(s) && Enabled(c, s, a)
    ensures Orderly(Next(c, s, a))
  {
  }

  lemma BoundedByWorker(c: Config, s: State, w: nat, result: ProbeResult)
    requires Bounded(c, s) && Enabled(c, s, Work(w, result))
    ensures Bounded(c, Worked(c, s, w, result))
  {
    SumUpdate(s.workers, Contributes, w, NextPc(s, w, result));
  }

  lemma BoundedByCollector(c: Config, s: State, quit: bool)
    requires Shape(c, s) && Counted(c, s) && Bounded(c, s) && Enabled(c, s, Collect(quit))
    ensures Bounded(c, Collected(c, s, quit))
  {
    SumBound(s.workers, Contributes, 1);
    if Pending(s.collector) != [] {
      SuccessesAppend(s.results, s.collector.item);
    } else if s.resultChan != [] {
      SuccessesAppend(s.results, s.resultChan[0]);
    }
  }

  lemma BoundedStep(c: Config, s: State, a: Action)
    requires Shape(c, s) && Counted(c, s) && Bounded(c, s) && Enabled(c, s, a)
    ensures Bounded(c, Next(c, s, a))
  {
    match a
    case Work(w, result) => BoundedByWorker(c, s, w, result);
    case Collect(quit) => BoundedByCollector(c, s, quit);
    case _ =>
  }

  lemma PlacesByProducer(c: Config, s: State, giveUp: bool, p: nat)
    requires Enabled(c, s, Produce(giveUp))
    ensures var t := Produced(c, s, giveUp);
            Places(t, p) - Places(s, p) == if s.sent <= p < t.sent then 1 else 0
  {
    match s.producer
    case Waiting(_) => TallyAppend(s.taskChan, s.sent, p);
    case _ =>
  }

  lemma PlacesByWorker(c: Config, s: State, w: nat, result: ProbeResult, p: nat)
    requires Enabled(c, s, Work(w, result))
    ensures Places(Worked(c, s, w, result), p) == Places(s, p)
  {
    AllHoldUpdate(s.workers, w, NextPc(s, w, result), p);
    var t := Worked(c, s, w, result);
    assert t.results == s.results && t.collector == s.collector;
    if s.workers[w].Sending? {
      PlacesBySend(c, s, w, result, p);
    } else {
      assert t.resultChan == s.resultChan;
      match s.workers[w]
      case Poll => if s.taskChan != [] { TallyPop(s.taskChan, p); }
      case Holding(pos) => if s.cancelled { TallyAppend(s.discarded, pos, p); }
      case _ =>
    }
  }

  lemma PlacesBySend(c: Config, s: State, w: nat, result: ProbeResult, p: nat)
    requires Enabled(c, s, Work(w, result)) && s.workers[w].Sending?
    ensures var t, item := Worked(c, s, w, result), s.workers[w].item;
            && t.taskChan == s.taskChan
            && Tally(t.discarded, p) + TallyItems(t.resultChan, p)
               == Tally(s.discarded, p) + TallyItems(s.resultChan, p) + if item.pos == p then 1 else 0
  {
    var item := s.workers[w].item;
    if s.collector.Returned? {
      TallyAppend(s.discarded, item.pos, p);
    } else {
      TallyItemsAppend(s.resultChan, item, p);
    }
  }

  lemma PlacesByReceive(c: Config, s: State, draining: bool, item: Item, p: nat)
    requires s.collector.Listen?
    ensures Places(Received(c, s, draining, item), p) == Places(s, p) + if item.pos == p then 1 else 0
  {
    var t := Received(c, s, draining, item);
    assert t.taskChan == s.taskChan && t.workers == s.workers && t.resultChan == s.resultChan
        && t.discarded == s.discarded;
    if t.collector.Listen? {
      assert t.results == s.results + [item];
      TallyItemsAppend(s.results, item, p);
    } else {
      assert t.results == s.results && t.collector == StoreFlag(draining, item);
    }
  }

  lemma PlacesByCollector(c: Config, s: State, quit: bool, p: nat)
    requires Enabled(c, s, Collect(quit))
    ensures Places(Collected(c, s, quit), p) == Places(s, p)
  {
    match s.collector
    case Listen(draining) =>
      if !quit && s.resultChan != [] {
        TallyItemsPop(s.resultChan, p);
        PlacesByReceive(c, s.(resultChan := s.resultChan[1..]), draining, s.resultChan[0], p);
      }
    case WakeWaiters(_, item) => TallyItemsAppend(s.results, item, p);
    case _ =>
  }

  lemma ConservedStep(c: Config, s: State, a: Action)
    requires Conserved(s) && Enabled(c, s, a)
    ensures Conserved(Next(c, s, a))
  {
    var t := Next(c, s, a);
    forall p: nat ensures Places(t, p) == if p < t.sent then 1 else 0 {
      assert Places(s, p) == if p < s.sent then 1 else 0;
      match a
      case Cancel => assert t.taskChan == s.taskChan;
      case Produce(giveUp) => PlacesByProducer(c, s, giveUp, p);
      case Work(w, result) => PlacesByWorker(c, s, w, result, p);
      case Collect(quit) => PlacesByCollector(c, s, quit, p);
    }
  }

  lemma InvStep(c: Config, s: State, a: Action)
    requires Inv(c, s) && Enabled(c, s, a)
    ensures Inv(c, Next(c, s, a))
  {
    ShapeStep(c, s, a);
    ConservedStep(c, s, a);
    FifoStep(c, s, a);
    CountedStep(c, s, a);
    FinishedStep(c, s, a);
    OrderlyStep(c, s, a);
    BoundedStep(c, s, a);
  }

  /** Every state of every run satisfies the invariant. */
  lemma {:induction false} InvAlways(c: Config, schedule: seq<Action>)
    requires Runs(c, schedule)
    ensures Inv(c, After(c, schedule))
  {
    if schedule == [] {
      InitInv(c);
    } else {
      var n := |schedule| - 1;
      InvAlways(c, schedule[..n]);
      InvStep(c, After(c, schedule[..n]), schedule[n]);
    }
  }

  // Conservation in numbers

  function InHand(w: Worker): nat {
    if w.Holding? || w.Running? || w.Sending? then 1 else 0
  }

  /** The sent tasks, counted where they are. */
  ghost predicate Numbered(s: State) {
    s.sent == |s.taskChan| + Sum(s.workers, InHand) + |s.resultChan| + |Pending(s.collector)| + |s.results| + |s.discarded|
  }

  lemma NumberedByWorker(c: Config, s: State, w: nat, result: ProbeResult)
    requires Numbered(s) && Enabled(c, s, Work(w, result))
    ensures Numbered(Worked(c, s, w, result))
  {
    SumUpdate(s.workers, InHand, w, NextPc(s, w, result));
    var t := Worked(c, s, w, result);
    assert t.results == s.results && t.collector == s.collector && t.sent == s.sent;
  }

  lemma NumberedByProducer(c: Config, s: State, giveUp: bool)
    requires Numbered(s) && Enabled(c, s, Produce(giveUp))
    ensures Numbered(Produced(c, s, giveUp))
  {
    var t := Produced(c, s, giveUp);
    assert t.results == s.results && t.collector == s.collector && t.workers == s.workers
        && t.resultChan == s.resultChan && t.discarded == s.discarded;
  }

  lemma NumberedByReceive(c: Config, s: State, draining: bool, item: Item)
    requires s.collector.Listen?
    ensures var t := Received(c, s, draining, item);
            && |t.results| + |Pending(t.collector)| == |s.results| + 1
            && t.sent == s.sent && t.taskChan == s.taskChan && t.workers == s.workers
            && t.resultChan == s.resultChan && t.discarded == s.discarded
  {
  }

  lemma NumberedByCollector(c: Config, s: State, quit: bool)
    requires Numbered(s) && Enabled(c, s, Collect(quit))
    ensures Numbered(Collected(c, s, quit))
  {
    match s.collector
    case Listen(draining) =>
      if !quit && s.resultChan != [] {
        NumberedByReceive(c, s.(resultChan := s.resultChan[1..]), draining, s.resultChan[0]);
      }
    case _ =>
  }

  lemma NumberedStep(c: Config, s: State, a: Action)
    requires Numbered(s) && Enabled(c, s, a)
    ensures Numbered(Next(c, s, a))
  {
    match a
    case Cancel =>
    case Produce(giveUp) => NumberedByProducer(c, s, giveUp);
    case Work(w, result) => NumberedByWorker(c, s, w, result);
    case Collect(quit) => NumberedByCollector(c, s, quit);
  }

  lemma {:induction false} NumberedAlways(c: Config, schedule: seq<Action>)
    requires Runs(c, schedule)
    ensures Numbered(After(c, schedule))
  {
    if schedule == [] {
      NobodyHolds(c.workers);
    } else {
      var n := |schedule| - 1;
      NumberedAlways(c, schedule[..n]);
      NumberedStep(c, After(c, schedule[..n]), schedule[n]);
    }
  }

  lemma {:induction false} NobodyHolds(n: nat)
    ensures Sum(seq(n, i => Outer), InHand) == 0
  {
    if n > 0 {
      NobodyHolds(n - 1);
      assert seq(n, i => Outer)[1..] == seq(n - 1, i => Outer);
    }
  }

  // What holds of every run

  /** Conservation at every moment of every run, cancelled or not: each task of the plan is
      unsent or in exactly one place, so no task ever has two results. */
  lemma ExactlyOnePlace(c: Config, schedule: seq<Action>, p: nat)
    requires Runs(c, schedule)
    ensures var s := After(c, schedule);
            && (if p < s.sent then 1 else 0) == Places(s, p)
            && TallyItems(s.results, p) <= 1
            && s.sent <= |c.plan|
  {
    InvAlways(c, schedule);
  }

  /** `success_count` is the number of received successes, and with no limit stays 0. */
  lemma SuccessCountExact(c: Config, schedule: seq<Action>)
    requires Runs(c, schedule)
    ensures var s := After(c, schedule);
            && s.successCount == (if c.limit > 0 then Successes(s.results + Pending(s.collector)) else 0)
            && (s.stop ==> c.limit > 0 && s.successCount >= c.limit)
  {
    InvAlways(c, schedule);
    var s := After(c, schedule);
    if Pending(s.collector) != [] {
      SuccessesAppend(s.results, s.collector.item);
    } else {
      assert s.results + Pending(s.collector) == s.results;
    }
  }

  /** Overshoot: with a positive limit the recorded successes never exceed the limit by more than
      the result channel's capacity plus one per worker. */
  lemma OvershootBound(c: Config, schedule: seq<Action>)
    requires Runs(c, schedule) && c.limit > 0
    ensures Successes(After(c, schedule).results) <= c.limit + c.resultCap + c.workers
  {
    InvAlways(c, schedule);
  }

  /** The tasks that workers have taken: a prefix of the plan, as the channel is first in, first out. */
  function Taken(s: State): int {
    s.sent - |s.taskChan|
  }

  lemma {:induction false} TallyOfRange(xs: seq<nat>, from: nat, p: nat)
    requires forall i | 0 <= i < |xs| :: xs[i] == from + i
    ensures Tally(xs, p) == if from <= p < from + |xs| then 1 else 0
  {
    if xs != [] {
      TallyOfRange(xs[..|xs| - 1], from, p);
    }
  }

  /** An uncancelled run that returned has one result for each task of a prefix of the plan: the
      whole plan without a limit, and otherwise a proper prefix only after `limit` successes. */
  lemma PrefixRefinement(c: Config, schedule: seq<Action>)
    requires ValidConfig(c) && Runs(c, schedule)
    requires After(c, schedule).collector.Returned? && !After(c, schedule).cancelled
    ensures var s := After(c, schedule); var k := Taken(s);
            && 0 <= k <= |c.plan|
            && (forall p: nat :: TallyItems(s.results, p) == if p < k then 1 else 0)
            && (k < |c.plan| ==> c.limit > 0 && Successes(s.results) >= c.limit)
  {
    InvAlways(c, schedule);
    var s := After(c, schedule);
    assert s.workers[0].Exited?;
    forall p: nat ensures TallyItems(s.results, p) == if p < Taken(s) then 1 else 0 {
      assert Places(s, p) == if p < s.sent then 1 else 0;
      TallyOfRange(s.taskChan, s.sent - |s.taskChan|, p);
      NothingHeld(s.workers, p);
    }
  }
}
