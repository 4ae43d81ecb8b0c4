/** The shared state of one `WorkerPool::run` call, updated in place. Each method is one atomic
    action of one actor; `history` is the run so far, so `Valid` says that the fields are exactly
    what the protocol of PoolProtocol prescribes for that run. */
module WorkerPool {
  import opened Types
  import opened PoolProtocol
  import opened PoolSafety
  import opened PoolResults

  class PoolRun {
    const c: Config
    var sent: nat
    var producer: Producer
    var taskChan: seq<nat>
    var workers: array<Worker>
    var resultChan: seq<Item>
    var collector: Collector
    var results: seq<Item>
    var discarded: seq<nat>
    var successCount: nat
    var stopEnqueue: bool
    var cancelled: bool
    ghost var history: seq<Action>

    function Snapshot(): State
      reads this, workers
    {
      State(sent, producer, taskChan, workers[..], resultChan, collector, results, discarded,
            successCount, stopEnqueue, cancelled)
    }

    ghost predicate Valid()
      reads this, workers
    {
      Runs(c, history) && Snapshot() == After(c, history)
    }

    constructor (c: Config)
      ensures this.c == c && history == [] && Valid() && fresh(workers)
    {
      this.c := c;
      sent, producer, taskChan, resultChan, collector := 0, AtLoop, [], [], Listen(false);
      results, discarded, successCount, stopEnqueue, cancelled := [], [], 0, false, false;
      workers := new Worker[c.workers](i => Outer);
      history := [];
    }

    ghost method Log(before: State, a: Action)
      requires Runs(c, history) && before == After(c, history) && Enabled(c, before, a)
      requires Snapshot() == Next(c, before, a)
      modifies this`history
      ensures history == old(history) + [a] && Valid()
    {
      assert (history + [a])[..|history|] == history;
      history := history + [a];
    }

    method CancelRun()
      requires Valid() && !cancelled
      modifies this
      ensures Valid() && history == old(history) + [Cancel] && workers == old(workers)
    {
      ghost var before := Snapshot();
      cancelled := true;
      Log(before, Cancel);
    }

    method ProducerStep(giveUp: bool)
      requires Valid() && Enabled(c, Snapshot(), Produce(giveUp))
      modifies this
      ensures Valid() && history == old(history) + [Produce(giveUp)] && workers == old(workers)
    {
      ghost var before := Snapshot();
      match producer {
        case AtLoop =>
          producer := if sent >= |c.plan| || cancelled || stopEnqueue then Done else Entering;
        case Entering =>
          producer := if cancelled || stopEnqueue then Done else Selecting;
        case Selecting =>
          if cancelled || stopEnqueue {
            producer := Done;
          } else {
            producer := if c.atomicRegister then Waiting(false) else Checked;
          }
        case Checked =>
          producer := Waiting(false);
        case Waiting(_) =>
          if giveUp {
            producer := Done;
          } else {
            taskChan := taskChan + [sent];
            sent := sent + 1;
            producer := AtLoop;
          }
        case Done =>
      }
      Log(before, Produce(giveUp));
    }

    method WorkerStep(w: nat, result: ProbeResult)
      requires Valid() && Enabled(c, Snapshot(), Work(w, result))
      modifies this, workers
      ensures Valid() && history == old(history) + [Work(w, result)] && workers == old(workers)
    {
      ghost var before := Snapshot();
      match workers[w] {
        case Outer =>
          workers[w] := if stopEnqueue then Exited else Inner;
        case Inner =>
          workers[w] := if stopEnqueue then Exited else Poll;
        case Poll =>
          if taskChan != [] {
            workers[w] := Holding(taskChan[0]);
            taskChan := taskChan[1..];
          } else {
            workers[w] := if producer.Done? then Exited else Idle;
          }
        case Idle =>
          workers[w] := if cancelled then Exited else Inner;
        case Holding(pos) =>
          if cancelled {
            discarded := discarded + [pos];
            workers[w] := Exited;
          } else {
            workers[w] := Running(pos);
          }
        case Running(pos) =>
          workers[w] := Sending(Item(pos, w, result));
        case Sending(item) =>
          if collector.Returned? {
            discarded := discarded + [item.pos];
            workers[w] := Exited;
          } else {
            resultChan := resultChan + [item];
            workers[w] := Outer;
          }
        case Exited =>
      }
      Log(before, Work(w, result));
    }

    /** Takes one result off the channel, with the counting part of `record_success`. */
    method Receive(draining: bool)
      requires collector == Listen(draining) && resultChan != []
      modifies this`resultChan, this`successCount, this`collector, this`results
      ensures Snapshot()
           == Received(c, old(Snapshot()).(resultChan := old(resultChan)[1..]), draining, old(resultChan)[0])
    {
      var item := resultChan[0];
      resultChan := resultChan[1..];
      var reached := false;
      if item.result.outcome.Success? && c.limit > 0 {
        successCount := successCount + 1;
        reached := successCount >= c.limit;
      }
      if reached {
        collector := StoreFlag(draining, item);
      } else {
        results := results + [item];
      }
    }

    method CollectorStep(quit: bool)
      requires Valid() && Enabled(c, Snapshot(), Collect(quit))
      modifies this
      ensures Valid() && history == old(history) + [Collect(quit)] && workers == old(workers)
    {
      ghost var before := Snapshot();
      match collector {
        case Listen(draining) =>
          if quit || resultChan == [] {
            collector := if draining then Returned else AwaitProducer;
          } else {
            Receive(draining);
          }
        case StoreFlag(draining, item) =>
          stopEnqueue := true;
          collector := WakeWaiters(draining, item);
        case WakeWaiters(draining, item) =>
          if producer.Waiting? {
            producer := Waiting(true);
          }
          results := results + [item];
          collector := Listen(draining);
        case AwaitProducer =>
          collector := Listen(true);
        case Returned =>
      }
      Log(before, Collect(quit));
    }

    /** What `run` returns once its collector is done. */
    method TakeResults() returns (sorted: seq<Item>)
      requires Valid() && collector.Returned?
      ensures multiset(sorted) == multiset(results)
      ensures forall i, j | 0 <= i < j < |sorted| :: IndexOf(c, sorted[i]) <= IndexOf(c, sorted[j])
      ensures forall p: nat :: TallyItems(sorted, p) <= 1
      ensures ValidConfig(c) && IncreasingPlan(c) && !cancelled ==>
                exists k: nat | k <= |c.plan| ::
                  && Positions(sorted) == Iota(k)
                  && (c.limit == 0 ==> k == |c.plan|)
                  && (k < |c.plan| ==> Successes(results) >= c.limit > 0)
    {
      sorted := SortResults(c, results);
      SortedByIndex(c, results);
      forall p: nat ensures TallyItems(sorted, p) <= 1 {
        ExactlyOnePlace(c, history, p);
      }
      if ValidConfig(c) && IncreasingPlan(c) && !cancelled {
        ReturnsPlanPrefix(c, history);
      }
    }
  }
}
