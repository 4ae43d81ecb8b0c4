/** What cancellation and the stop flag do to a run of the worker pool: no worker enters its backend
    call any more, at most one more task is sent, and a cancelled run always returns. */
module PoolCancellation {
  import opened Types
  import opened Counting
  import opened PoolProtocol
  import opened PoolSafety
  import opened PoolProgress

  lemma RunsEarlier(c: Config, schedule: seq<Action>, k: nat)
    requires Runs(c, schedule) && k < |schedule|
    ensures var n := |schedule| - 1;
            && Runs(c, schedule[..n]) && schedule[..n][..k] == schedule[..k]
            && Enabled(c, After(c, schedule[..n]), schedule[n])
            && After(c, schedule) == Next(c, After(c, schedule[..n]), schedule[n])
  {
    assert schedule[..|schedule| - 1][..k] == schedule[..k];
  }

  lemma {:induction false} RunsPrefix(c: Config, schedule: seq<Action>, k: nat)
    requires Runs(c, schedule) && k <= |schedule|
    ensures Runs(c, schedule[..k])
  {
    if k < |schedule| {
      RunsEarlier(c, schedule, k);
      RunsPrefix(c, schedule[..|schedule| - 1], k);
    } else {
      assert schedule[..k] == schedule;
    }
  }

  lemma FlagsStay(c: Config, s: State, a: Action)
    requires Enabled(c, s, a)
    ensures (s.cancelled ==> Next(c, s, a).cancelled) && (s.stop ==> Next(c, s, a).stop)
  {
  }

  predicate Halting(s: State) {
    s.cancelled || s.stop
  }

  // No backend call starts after a cancellation

  /** Whoever is in a backend call of `t` was in the same call in `s`. */
  ghost predicate NoNewCalls(s: State, t: State) {
    && |t.workers| == |s.workers|
    && forall w | 0 <= w < |t.workers| && t.workers[w].Running? :: t.workers[w] == s.workers[w]
  }

  lemma NoNewCallsStep(c: Config, s: State, a: Action)
    requires s.cancelled && Enabled(c, s, a)
    ensures NoNewCalls(s, Next(c, s, a))
  {
    match a
    case Cancel =>
    case Work(w, result) => assert !NextPc(s, w, result).Running?;
    case Produce(giveUp) => assert Produced(c, s, giveUp).workers == s.workers;
    case Collect(quit) => assert Collected(c, s, quit).workers == s.workers;
  }

  /** From the moment `k` of the cancellation on, no worker enters its backend call. */
  lemma {:induction false} NoCallAfterCancellation(c: Config, schedule: seq<Action>, k: nat)
    requires Runs(c, schedule) && k <= |schedule|
    ensures Runs(c, schedule[..k])
    ensures After(c, schedule[..k]).cancelled ==>
              After(c, schedule).cancelled && NoNewCalls(After(c, schedule[..k]), After(c, schedule))
  {
    RunsPrefix(c, schedule, k);
    if k == |schedule| {
      assert schedule[..k] == schedule;
    } else {
      RunsEarlier(c, schedule, k);
      var n := |schedule| - 1;
      NoCallAfterCancellation(c, schedule[..n], k);
      if After(c, schedule[..k]).cancelled {
        NoNewCallsStep(c, After(c, schedule[..n]), schedule[n]);
        FlagsStay(c, After(c, schedule[..n]), schedule[n]);
      }
    }
  }

  // No task gets a result that was not on its way

  function AtWork(w: Worker, p: nat): nat {
    match w
    case Running(pos) => if pos == p then 1 else 0
    case Sending(item) => if item.pos == p then 1 else 0
    case _ => 0
  }

  function AllAtWork(ws: seq<Worker>, p: nat): nat {
    if ws == [] then 0 else AtWork(ws[0], p) + AllAtWork(ws[1..], p)
  }

  lemma {:induction false} AllAtWorkUpdate(ws: seq<Worker>, w: nat, x: Worker, p: nat)
    requires w < |ws|
    ensures AllAtWork(ws[w := x], p) + AtWork(ws[w], p) == AllAtWork(ws, p) + AtWork(x, p)
  {
    if w == 0 {
      assert ws[w := x][1..] == ws[1..];
    } else {
      assert ws[w := x][1..] == ws[1..][w - 1 := x];
      AllAtWorkUpdate(ws[1..], w - 1, x, p);
    }
  }

  /** Task `p` is in a backend call or has its result: on the way, in the collector's hand, recorded. */
  function Committed(s: State, p: nat): nat {
    AllAtWork(s.workers, p) + TallyItems(s.resultChan, p) + InCollector(s.collector, p) + TallyItems(s.results, p)
  }

  lemma CommittedByWorker(c: Config, s: State, w: nat, result: ProbeResult, p: nat)
    requires s.cancelled && Enabled(c, s, Work(w, result))
    ensures Committed(Worked(c, s, w, result), p) <= Committed(s, p)
  {
    AllAtWorkUpdate(s.workers, w, NextPc(s, w, result), p);
    var t := Worked(c, s, w, result);
    assert t.results == s.results && t.collector == s.collector;
    if s.workers[w].Sending? && !s.collector.Returned? {
      TallyItemsAppend(s.resultChan, s.workers[w].item, p);
    } else {
      assert t.resultChan == s.resultChan;
    }
  }

  lemma CommittedByCollector(c: Config, s: State, quit: bool, p: nat)
    requires Enabled(c, s, Collect(quit))
    ensures Committed(Collected(c, s, quit), p) == Committed(s, p)
  {
    PlacesByCollector(c, s, quit, p);
    CollectorLeaves(c, s, quit);
  }

  lemma CollectorLeaves(c: Config, s: State, quit: bool)
    requires Enabled(c, s, Collect(quit))
    ensures var t := Collected(c, s, quit);
            t.taskChan == s.taskChan && t.workers == s.workers && t.discarded == s.discarded
  {
  }

  lemma CommittedStep(c: Config, s: State, a: Action, p: nat)
    requires s.cancelled && Enabled(c, s, a)
    ensures Committed(Next(c, s, a), p) <= Committed(s, p)
  {
    match a
    case Cancel =>
    case Work(w, result) => CommittedByWorker(c, s, w, result, p);
    case Collect(quit) => CommittedByCollector(c, s, quit, p);
    case Produce(giveUp) =>
      var t := Produced(c, s, giveUp);
      assert t.workers == s.workers && t.resultChan == s.resultChan && t.collector == s.collector && t.results == s.results;
  }

  /** A task recorded after a cancellation was, at the cancellation, recorded already, on its way to
      the collector, or in its backend call. */
  lemma {:induction false} OnlyCommittedAreRecorded(c: Config, schedule: seq<Action>, k: nat, p: nat)
    requires Runs(c, schedule) && k <= |schedule|
    ensures Runs(c, schedule[..k])
    ensures After(c, schedule[..k]).cancelled ==> Committed(After(c, schedule), p) <= Committed(After(c, schedule[..k]), p)
    ensures After(c, schedule[..k]).cancelled ==> TallyItems(After(c, schedule).results, p) <= Committed(After(c, schedule[..k]), p)
  {
    NoCallAfterCancellation(c, schedule, k);
    if k == |schedule| {
      assert schedule[..k] == schedule;
    } else {
      RunsEarlier(c, schedule, k);
      var n := |schedule| - 1;
      OnlyCommittedAreRecorded(c, schedule[..n], k, p);
      if After(c, schedule[..k]).cancelled {
        NoCallAfterCancellation(c, schedule[..n], k);
        CommittedStep(c, After(c, schedule[..n]), schedule[n], p);
      }
    }
  }

  function Busy(w: Worker): nat {
    if w.Running? || w.Sending? then 1 else 0
  }

  /** How many results can still be recorded, the recorded ones included. */
  function Possible(s: State): nat {
    |s.results| + |s.resultChan| + |Pending(s.collector)| + Sum(s.workers, Busy)
  }

  lemma PossibleStep(c: Config, s: State, a: Action)
    requires s.cancelled && Enabled(c, s, a)
    ensures Possible(Next(c, s, a)) <= Possible(s)
  {
    match a
    case Cancel =>
    case Work(w, result) =>
      SumUpdate(s.workers, Busy, w, NextPc(s, w, result));
      var t := Worked(c, s, w, result);
      assert t.results == s.results && t.collector == s.collector;
    case Collect(quit) => PossibleByCollector(c, s, quit);
    case Produce(giveUp) =>
      var t := Produced(c, s, giveUp);
      assert t.workers == s.workers && t.resultChan == s.resultChan && t.collector == s.collector && t.results == s.results;
  }

  lemma PossibleByCollector(c: Config, s: State, quit: bool)
    requires Enabled(c, s, Collect(quit))
    ensures Possible(Collected(c, s, quit)) == Possible(s)
  {
    match s.collector
    case Listen(draining) =>
      if !quit && s.resultChan != [] {
        NumberedByReceive(c, s.(resultChan := s.resultChan[1..]), draining, s.resultChan[0]);
      }
    case _ =>
  }

  /** After a cancellation the recorded results never exceed those recorded, in the result channel, in
      the collector's hand, or with a worker in or behind its backend call at that moment. */
  lemma {:induction false} RecordedAfterCancellation(c: Config, schedule: seq<Action>, k: nat)
    requires Runs(c, schedule) && k <= |schedule|
    ensures Runs(c, schedule[..k])
    ensures After(c, schedule[..k]).cancelled ==> Possible(After(c, schedule)) <= Possible(After(c, schedule[..k]))
    ensures After(c, schedule[..k]).cancelled ==> |After(c, schedule).results| <= Possible(After(c, schedule[..k]))
  {
    NoCallAfterCancellation(c, schedule, k);
    if k == |schedule| {
      assert schedule[..k] == schedule;
    } else {
      RunsEarlier(c, schedule, k);
      var n := |schedule| - 1;
      RecordedAfterCancellation(c, schedule[..n], k);
      if After(c, schedule[..k]).cancelled {
        NoCallAfterCancellation(c, schedule[..n], k);
        PossibleStep(c, After(c, schedule[..n]), schedule[n]);
      }
    }
  }

  // At most one more task is sent

  /** The tasks sent, and the one the producer has in its pending select. */
  function Sendable(s: State): nat {
    s.sent + if s.producer.Checked? || s.producer.Waiting? then 1 else 0
  }

  lemma SendableStep(c: Config, s: State, a: Action)
    requires Halting(s) && Enabled(c, s, a)
    ensures Halting(Next(c, s, a)) && Sendable(Next(c, s, a)) <= Sendable(s)
  {
    FlagsStay(c, s, a);
  }

  lemma {:induction false} SendableStays(c: Config, schedule: seq<Action>, k: nat)
    requires Runs(c, schedule) && k <= |schedule|
    ensures Runs(c, schedule[..k])
    ensures Halting(After(c, schedule[..k])) ==>
              Halting(After(c, schedule)) && Sendable(After(c, schedule)) <= Sendable(After(c, schedule[..k]))
  {
    RunsPrefix(c, schedule, k);
    if k == |schedule| {
      assert schedule[..k] == schedule;
    } else {
      RunsEarlier(c, schedule, k);
      var n := |schedule| - 1;
      SendableStays(c, schedule[..n], k);
      if Halting(After(c, schedule[..n])) {
        SendableStep(c, After(c, schedule[..n]), schedule[n]);
      }
    }
  }

  /** Once the run is cancelled or the limit's flag is up, the producer sends at most one more task. */
  lemma AtMostOneMoreSent(c: Config, schedule: seq<Action>, k: nat)
    requires Runs(c, schedule) && k <= |schedule|
    ensures Runs(c, schedule[..k])
    ensures var s := After(c, schedule[..k]); s.cancelled || s.stop ==> After(c, schedule).sent <= s.sent + 1
  {
    SendableStays(c, schedule, k);
  }

  // Why actors stop

  /** A worker's step ends its loop exactly for these reasons. */
  lemma WorkerExitsIff(c: Config, s: State, w: nat, result: ProbeResult)
    requires Enabled(c, s, Work(w, result))
    ensures Next(c, s, Work(w, result)).workers[w].Exited? <==>
            match s.workers[w]
            case Outer => s.stop
            case Inner => s.stop
            case Poll => s.taskChan == [] && s.producer.Done?
            case Idle => s.cancelled
            case Holding(_) => s.cancelled
            case Sending(_) => s.collector.Returned?
            case _ => false
  {
  }

  /** The producer's step ends it exactly for these reasons. */
  lemma ProducerEndsIff(c: Config, s: State, giveUp: bool)
    requires Enabled(c, s, Produce(giveUp))
    ensures Next(c, s, Produce(giveUp)).producer.Done? <==>
            match s.producer
            case AtLoop => s.sent >= |c.plan| || s.cancelled || s.stop
            case Entering => s.cancelled || s.stop
            case Selecting => s.cancelled || s.stop
            case Waiting(_) => giveUp
            case _ => false
  {
  }

  // A cancelled run returns

  function WorkerSteps(w: Worker): nat {
    match w
    case Exited => 0
    case Idle => 1
    case Holding(_) => 1
    case Poll => 2
    case Inner => 3
    case Outer => 4
    case Sending(_) => 9
    case Running(_) => 10
  }

  function ProducerSteps(p: Producer): nat {
    match p
    case Done => 0
    case AtLoop => 1
    case Entering => 1
    case Selecting => 1
    case Waiting(_) => 2
    case Checked => 3
  }

  function ListenSteps(draining: bool): nat { if draining then 1 else 3 }

  function CollectorSteps(col: Collector): nat {
    match col
    case Returned => 0
    case AwaitProducer => 2
    case Listen(draining) => ListenSteps(draining)
    case WakeWaiters(draining, _) => 1 + ListenSteps(draining)
    case StoreFlag(draining, _) => 2 + ListenSteps(draining)
  }

  /** How many steps a cancelled run can still take. */
  function StepsLeft(s: State): nat {
    ProducerSteps(s.producer) + Sum(s.workers, WorkerSteps) + 4 * |s.resultChan| + CollectorSteps(s.collector)
  }

  lemma StepsLeftByWorker(c: Config, s: State, w: nat, result: ProbeResult)
    requires s.cancelled && Enabled(c, s, Work(w, result))
    ensures StepsLeft(Worked(c, s, w, result)) < StepsLeft(s)
  {
    SumUpdate(s.workers, WorkerSteps, w, NextPc(s, w, result));
    var t := Worked(c, s, w, result);
    assert t.producer == s.producer && t.collector == s.collector;
  }

  lemma StepsLeftByProducer(c: Config, s: State, giveUp: bool)
    requires s.cancelled && Enabled(c, s, Produce(giveUp))
    ensures StepsLeft(Produced(c, s, giveUp)) < StepsLeft(s)
  {
    var t := Produced(c, s, giveUp);
    assert t.workers == s.workers && t.collector == s.collector && t.resultChan == s.resultChan;
  }

  lemma StepsLeftByCollector(c: Config, s: State, quit: bool)
    requires Enabled(c, s, Collect(quit))
    ensures StepsLeft(Collected(c, s, quit)) < StepsLeft(s)
  {
    var t := Collected(c, s, quit);
    assert t.workers == s.workers && ProducerSteps(t.producer) == ProducerSteps(s.producer);
  }

  /** Every step of a cancelled state is one of the last. */
  lemma StepsLeftFall(c: Config, s: State, a: Action)
    requires s.cancelled && Enabled(c, s, a)
    ensures StepsLeft(Next(c, s, a)) < StepsLeft(s)
  {
    match a
    case Cancel =>
    case Produce(giveUp) => StepsLeftByProducer(c, s, giveUp);
    case Work(w, result) => StepsLeftByWorker(c, s, w, result);
    case Collect(quit) => StepsLeftByCollector(c, s, quit);
  }

  lemma StepsLeftBound(c: Config, s: State)
    requires Shape(c, s)
    ensures StepsLeft(s) <= 10 * c.workers + 4 * c.resultCap + 8
  {
    SumBound(s.workers, WorkerSteps, 10);
  }

  /** Whatever the schedule, a run takes at most that many steps after its cancellation: ten per
      worker, four per place in the result channel, and eight. */
  lemma {:induction false} CancelledRunsAreShort(c: Config, schedule: seq<Action>, k: nat)
    requires Runs(c, schedule) && k <= |schedule|
    ensures Runs(c, schedule[..k])
    ensures After(c, schedule[..k]).cancelled ==>
              |schedule| - k + StepsLeft(After(c, schedule)) <= 10 * c.workers + 4 * c.resultCap + 8
  {
    NoCallAfterCancellation(c, schedule, k);
    if k == |schedule| {
      assert schedule[..k] == schedule;
      InvAlways(c, schedule);
      StepsLeftBound(c, After(c, schedule));
    } else {
      RunsEarlier(c, schedule, k);
      var n := |schedule| - 1;
      CancelledRunsAreShort(c, schedule[..n], k);
      if After(c, schedule[..k]).cancelled {
        NoCallAfterCancellation(c, schedule[..n], k);
        StepsLeftFall(c, After(c, schedule[..n]), schedule[n]);
      }
    }
  }

  lemma CancelledCanStep(c: Config, s: State) returns (a: Action)
    requires s.cancelled && !s.collector.Returned?
    ensures Enabled(c, s, a)
  {
    match s.collector
    case Listen(_) => return Collect(true);
    case AwaitProducer =>
      if s.producer.Done? { return Collect(false); }
      return Produce(s.producer.Waiting?);
    case _ => return Collect(false);
  }

  /** Cancellation always gets out, even of a deadlock: every cancelled run can go on until `run`
      returns, and with `CancelledRunsAreShort` it does, however it is scheduled. */
  lemma {:induction false} CancelledRunReturns(c: Config, schedule: seq<Action>) returns (full: seq<Action>)
    requires Runs(c, schedule) && After(c, schedule).cancelled
    ensures schedule <= full && Runs(c, full) && After(c, full).collector.Returned?
    decreases StepsLeft(After(c, schedule))
  {
    var s := After(c, schedule);
    if s.collector.Returned? { return schedule; }
    var a := CancelledCanStep(c, s);
    Extend(c, schedule, a);
    StepsLeftFall(c, s, a);
    FlagsStay(c, s, a);
    full := CancelledRunReturns(c, schedule + [a]);
  }
}
