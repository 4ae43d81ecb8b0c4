/** Progress of the worker pool: which uncancelled states can be stuck, and a ranking that every
    step outside idle polling lowers. */
module PoolProgress {
  import opened Types
  import opened Counting
  import opened PoolProtocol
  import opened PoolSafety

  /** A worker's step around its polling loop while there is nothing to take and more may come. */
  predicate IdlePoll(s: State, a: Action) {
    && a.Work? && a.w < |s.workers|
    && (s.workers[a.w].Outer? || s.workers[a.w].Inner? || s.workers[a.w].Poll? || s.workers[a.w].Idle?)
    && !s.stop && s.taskChan == [] && !s.producer.Done?
  }

  predicate Useful(c: Config, s: State, a: Action) {
    Enabled(c, s, a) && !a.Cancel? && !IdlePoll(s, a)
  }

  ghost predicate Stuck(c: Config, s: State) {
    forall a :: !Useful(c, s, a)
  }

  /** The producer registered its waiter after the notification had been sent: it waits on a full
      channel that no worker will ever empty, and `run` waits for the producer. */
  ghost predicate LostWakeup(c: Config, s: State) {
    && s.producer == Waiting(false) && s.stop && |s.taskChan| >= c.taskCap
    && AllExited(s) && s.collector == AwaitProducer
  }

  /** With registration atomic, a waiter registered before the flag is still to be notified. */
  ghost predicate NoMissedWaiter(c: Config, s: State) {
    c.atomicRegister && s.producer == Waiting(false) && s.stop ==> s.collector.WakeWaiters?
  }

  lemma NoMissedWaiterStep(c: Config, s: State, a: Action)
    requires Shape(c, s) && NoMissedWaiter(c, s) && Enabled(c, s, a)
    ensures NoMissedWaiter(c, Next(c, s, a))
  {
  }

  lemma {:induction false} NoMissedWaiterAlways(c: Config, schedule: seq<Action>)
    requires Runs(c, schedule)
    ensures NoMissedWaiter(c, After(c, schedule))
  {
    if schedule != [] {
      var n := |schedule| - 1;
      NoMissedWaiterAlways(c, schedule[..n]);
      InvAlways(c, schedule[..n]);
      NoMissedWaiterStep(c, After(c, schedule[..n]), schedule[n]);
    }
  }

  const ANY_RESULT := ProbeResult(ProbeOutcome.InternalError, None, None)

  /** A step that some live worker can usefully take, when the channel has work or is closed. */
  lemma WorkerCanStep(c: Config, s: State) returns (a: Action)
    requires ValidConfig(c) && Inv(c, s) && !s.cancelled && !AllExited(s)
    requires s.taskChan != [] || s.producer.Done?
    ensures Useful(c, s, a)
  {
    var w :| 0 <= w < |s.workers| && !s.workers[w].Exited?;
    if s.workers[w].Sending? && |s.resultChan| >= c.resultCap {
      return Collect(false);
    }
    return Work(w, ANY_RESULT);
  }

  /** A useful step in every unfinished uncancelled state except after a lost wakeup. */
  lemma CanStep(c: Config, s: State) returns (a: Action)
    requires ValidConfig(c) && Inv(c, s) && !s.cancelled && !s.collector.Returned? && !LostWakeup(c, s)
    ensures Useful(c, s, a)
  {
    if s.collector.StoreFlag? || s.collector.WakeWaiters? { return Collect(false); }
    if s.collector == Listen(true) { return Collect(true); }
    match s.producer
    case Done =>
      if AllExited(s) { return Collect(false); }
      a := WorkerCanStep(c, s);
    case Waiting(woken) =>
      if woken { return Produce(true); }
      if |s.taskChan| < c.taskCap { return Produce(false); }
      if AllExited(s) {
        assert s.workers[0].Exited?;
        return Collect(false);
      }
      a := WorkerCanStep(c, s);
    case _ => return Produce(false);
  }

  /** Deadlock, exactly: an unfinished uncancelled state of a run has no useful step if and only
      if the producer's wakeup was lost; then nothing but cancellation is enabled at all. */
  lemma StuckIffLostWakeup(c: Config, schedule: seq<Action>)
    requires ValidConfig(c) && Runs(c, schedule)
    requires !After(c, schedule).cancelled && !After(c, schedule).collector.Returned?
    ensures Stuck(c, After(c, schedule)) <==> LostWakeup(c, After(c, schedule))
    ensures LostWakeup(c, After(c, schedule)) ==> forall a :: Enabled(c, After(c, schedule), a) ==> a.Cancel?
  {
    InvAlways(c, schedule);
    if !LostWakeup(c, After(c, schedule)) {
      var a := CanStep(c, After(c, schedule));
    }
  }

  /** When a run can deadlock at all: the check is split, there is a limit, and after `limit`
      successes enough tasks are left to fill the task channel and one more. */
  predicate CanDeadlock(c: Config) {
    !c.atomicRegister && c.limit > 0 && |c.plan| > c.limit + c.taskCap
  }

  lemma LostWakeupNeeds(c: Config, schedule: seq<Action>)
    requires Runs(c, schedule) && LostWakeup(c, After(c, schedule))
    ensures CanDeadlock(c)
  {
    InvAlways(c, schedule);
    NoMissedWaiterAlways(c, schedule);
    NumberedAlways(c, schedule);
    CountAtMostLength(After(c, schedule).results, IsSuccess());
  }

  /** No run of a configuration that cannot deadlock is ever stuck. */
  lemma NeverStuck(c: Config, schedule: seq<Action>)
    requires ValidConfig(c) && Runs(c, schedule) && !CanDeadlock(c)
    requires !After(c, schedule).cancelled && !After(c, schedule).collector.Returned?
    ensures !Stuck(c, After(c, schedule))
  {
    StuckIffLostWakeup(c, schedule);
    if LostWakeup(c, After(c, schedule)) {
      LostWakeupNeeds(c, schedule);
    }
  }

  // The ranking

  function WorkerWeight(w: Worker): nat {
    match w
    case Exited => 0
    case Holding(_) => 9
    case Running(_) => 8
    case Sending(_) => 7
    case _ => 1
  }

  function ProducerWeight(p: Producer): nat {
    match p
    case AtLoop => 6
    case Entering => 5
    case Selecting => 4
    case Checked => 3
    case Waiting(woken) => if woken then 1 else 2
    case Done => 0
  }

  function CollectorWeight(col: Collector): nat {
    match col
    case Listen(draining) => if draining then 1 else 3
    case StoreFlag(draining, _) => 4 + if draining then 1 else 3
    case WakeWaiters(draining, _) => 3 + if draining then 1 else 3
    case AwaitProducer => 2
    case Returned => 0
  }

  /** Weighs every task by the stages still ahead of it, and every actor that is not done. */
  function Weight(c: Config, s: State): int {
    20 * (|c.plan| - s.sent) + ProducerWeight(s.producer) + 10 * |s.taskChan|
    + Sum(s.workers, WorkerWeight) + 5 * |s.resultChan| + CollectorWeight(s.collector)
  }

  function StepsToExit(w: Worker): nat { if w.Poll? then 2 else if w.Idle? then 1 else 0 }

  function StepsToPoll(w: Worker): nat { if w.Outer? || w.Idle? then 2 else if w.Inner? then 1 else 0 }

  /** How far the polling workers are from the flag check or the poll that will end their loop. */
  function Distance(s: State): nat {
    if s.stop then Sum(s.workers, StepsToExit)
    else if s.taskChan != [] || s.producer.Done? then Sum(s.workers, StepsToPoll)
    else 0
  }

  /** Steps of the polling loop that take no task and do not leave it. */
  predicate Polls(s: State, a: Action) {
    a.Work? && a.w < |s.workers| &&
    match s.workers[a.w]
    case Outer => !s.stop
    case Inner => !s.stop
    case Poll => s.taskChan == [] && !s.producer.Done?
    case Idle => true
    case _ => false
  }

  lemma WeightByWorker(c: Config, s: State, w: nat, result: ProbeResult)
    requires Inv(c, s) && !s.cancelled && Enabled(c, s, Work(w, result))
    ensures var t := Worked(c, s, w, result);
            if Polls(s, Work(w, result)) then Weight(c, t) == Weight(c, s) else Weight(c, t) < Weight(c, s)
  {
    SumUpdate(s.workers, WorkerWeight, w, NextPc(s, w, result));
  }

  lemma WeightByProducer(c: Config, s: State, giveUp: bool)
    requires Enabled(c, s, Produce(giveUp))
    ensures Weight(c, Produced(c, s, giveUp)) < Weight(c, s)
  {
  }

  lemma WeightByCollector(c: Config, s: State, quit: bool)
    requires !s.cancelled && Enabled(c, s, Collect(quit))
    ensures Weight(c, Collected(c, s, quit)) < Weight(c, s)
  {
    var t := Collected(c, s, quit);
    assert t.workers == s.workers && t.taskChan == s.taskChan && t.sent == s.sent;
  }

  /** Every step but a poll lowers the weight, and a poll keeps it. */
  lemma WeightStep(c: Config, s: State, a: Action)
    requires Inv(c, s) && !s.cancelled && Enabled(c, s, a) && !a.Cancel?
    ensures if Polls(s, a) then Weight(c, Next(c, s, a)) == Weight(c, s)
            else Weight(c, Next(c, s, a)) < Weight(c, s)
  {
    match a
    case Produce(giveUp) => WeightByProducer(c, s, giveUp);
    case Work(w, result) => WeightByWorker(c, s, w, result);
    case Collect(quit) => WeightByCollector(c, s, quit);
  }

  /** The ranking (weight, distance) falls lexicographically with every useful step, and an idle
      poll leaves it as it is. */
  lemma RankStep(c: Config, s: State, a: Action)
    requires Inv(c, s) && !s.cancelled && Enabled(c, s, a) && !a.Cancel?
    ensures var t := Next(c, s, a);
            if Useful(c, s, a) then
              Weight(c, t) < Weight(c, s) || (Weight(c, t) == Weight(c, s) && Distance(t) < Distance(s))
            else Weight(c, t) == Weight(c, s) && Distance(t) == Distance(s)
  {
    WeightStep(c, s, a);
    if Polls(s, a) {
      SumUpdate(s.workers, StepsToExit, a.w, NextPc(s, a.w, a.result));
      SumUpdate(s.workers, StepsToPoll, a.w, NextPc(s, a.w, a.result));
    }
  }

  /** How many steps of a run are not polls. */
  function Effort(c: Config, schedule: seq<Action>): nat
    requires Runs(c, schedule)
  {
    if schedule == [] then 0
    else
      var n := |schedule| - 1;
      Effort(c, schedule[..n]) + if Polls(After(c, schedule[..n]), schedule[n]) then 0 else 1
  }

  lemma {:induction false} CancelledStays(c: Config, schedule: seq<Action>)
    requires Runs(c, schedule) && schedule != [] && !After(c, schedule).cancelled
    ensures !After(c, schedule[..|schedule| - 1]).cancelled && !schedule[|schedule| - 1].Cancel?
  {
  }

  /** An uncancelled run takes at most 20 steps per task, plus one per worker and nine, outside
      its polling loops, however it is scheduled. */
  lemma {:induction false} EffortBound(c: Config, schedule: seq<Action>)
    requires Runs(c, schedule) && !After(c, schedule).cancelled
    ensures Effort(c, schedule) + Weight(c, After(c, schedule)) <= 20 * |c.plan| + c.workers + 9
    ensures Weight(c, After(c, schedule)) >= 0
  {
    InvAlways(c, schedule);
    if schedule == [] {
      InitialWeight(c.workers);
    } else {
      var n := |schedule| - 1;
      CancelledStays(c, schedule);
      EffortBound(c, schedule[..n]);
      InvAlways(c, schedule[..n]);
      WeightStep(c, After(c, schedule[..n]), schedule[n]);
    }
  }

  lemma {:induction false} InitialWeight(n: nat)
    ensures Sum(seq(n, i => Outer), WorkerWeight) == n
  {
    if n > 0 {
      InitialWeight(n - 1);
      assert seq(n, i => Outer)[1..] == seq(n - 1, i => Outer);
    }
  }

  lemma Extend(c: Config, schedule: seq<Action>, a: Action)
    requires Runs(c, schedule) && Enabled(c, After(c, schedule), a)
    ensures Runs(c, schedule + [a]) && After(c, schedule + [a]) == Next(c, After(c, schedule), a)
  {
    assert (schedule + [a])[..|schedule|] == schedule;
  }

  /** Every uncancelled run of a configuration that cannot deadlock can be continued until `run`
      returns. */
  lemma {:induction false} CanFinish(c: Config, schedule: seq<Action>) returns (full: seq<Action>)
    requires ValidConfig(c) && Runs(c, schedule) && !CanDeadlock(c)
    requires !After(c, schedule).cancelled
    ensures schedule <= full && Runs(c, full)
    ensures After(c, full).collector.Returned? && !After(c, full).cancelled
    decreases Weight(c, After(c, schedule)), Distance(After(c, schedule))
  {
    var s := After(c, schedule);
    if s.collector.Returned? { return schedule; }
    InvAlways(c, schedule);
    NeverStuck(c, schedule);
    var a :| Useful(c, s, a);
    Extend(c, schedule, a);
    RankStep(c, s, a);
    EffortBound(c, schedule);
    EffortBound(c, schedule + [a]);
    full := CanFinish(c, schedule + [a]);
  }
}
