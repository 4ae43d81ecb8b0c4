/** Runs built step by step: they show that the deadlock and the overshoot that PoolProgress and
    PoolSafety leave open do occur, for every configuration that meets the stated condition. */
module PoolScenarios {
  import opened Types
  import opened Counting
  import opened PoolProtocol
  import opened PoolSafety
  import opened PoolProgress

  const SUCCESS := ProbeResult(Success, None, None)

  // One actor at a time

  /** The producer reads the flag clear and has not registered its waiter yet. */
  lemma Checks(c: Config, schedule: seq<Action>) returns (longer: seq<Action>)
    requires Runs(c, schedule) && !c.atomicRegister
    requires var s := After(c, schedule);
             !s.stop && !s.cancelled && s.producer.AtLoop? && s.sent < |c.plan|
    ensures Runs(c, longer) && After(c, longer) == After(c, schedule).(producer := Checked)
  {
    longer := schedule;
    Extend(c, longer, Produce(false));
    longer := longer + [Produce(false)];
    Extend(c, longer, Produce(false));
    longer := longer + [Produce(false)];
    Extend(c, longer, Produce(false));
    longer := longer + [Produce(false)];
  }

  /** The producer waits in its select, with the flag and the registration in one step or in two. */
  lemma Waits(c: Config, schedule: seq<Action>) returns (longer: seq<Action>)
    requires Runs(c, schedule)
    requires var s := After(c, schedule);
             !s.stop && !s.cancelled && s.producer.AtLoop? && s.sent < |c.plan|
    ensures Runs(c, longer) && After(c, longer) == After(c, schedule).(producer := Waiting(false))
  {
    if c.atomicRegister {
      longer := schedule;
      Extend(c, longer, Produce(false));
      longer := longer + [Produce(false)];
      Extend(c, longer, Produce(false));
      longer := longer + [Produce(false)];
    } else {
      longer := Checks(c, schedule);
    }
    Extend(c, longer, Produce(false));
    longer := longer + [Produce(false)];
  }

  lemma Sends(c: Config, schedule: seq<Action>) returns (longer: seq<Action>)
    requires Runs(c, schedule)
    requires var s := After(c, schedule);
             !s.stop && !s.cancelled && s.producer.AtLoop? && s.sent < |c.plan| && |s.taskChan| < c.taskCap
    ensures Runs(c, longer)
    ensures var s := After(c, schedule);
            After(c, longer) == s.(taskChan := s.taskChan + [s.sent], sent := s.sent + 1)
  {
    longer := Waits(c, schedule);
    Extend(c, longer, Produce(false));
    longer := longer + [Produce(false)];
  }

  lemma {:induction false} SendsMany(c: Config, schedule: seq<Action>, n: nat) returns (longer: seq<Action>)
    requires Runs(c, schedule)
    requires var s := After(c, schedule);
             !s.stop && !s.cancelled && s.producer.AtLoop? && s.sent + n <= |c.plan| && |s.taskChan| + n <= c.taskCap
    ensures Runs(c, longer)
    ensures var s, t := After(c, schedule), After(c, longer);
            t == s.(taskChan := t.taskChan, sent := s.sent + n) && |t.taskChan| == |s.taskChan| + n
  {
    if n == 0 {
      longer := schedule;
    } else {
      longer := SendsMany(c, schedule, n - 1);
      longer := Sends(c, longer);
    }
  }

  /** Worker `w` takes the oldest task into its backend call. */
  lemma Takes(c: Config, schedule: seq<Action>, w: nat) returns (longer: seq<Action>)
    requires Runs(c, schedule)
    requires var s := After(c, schedule);
             !s.stop && !s.cancelled && w < |s.workers| && s.workers[w] == Outer && s.taskChan != []
    ensures Runs(c, longer)
    ensures var s := After(c, schedule);
            After(c, longer) == s.(workers := s.workers[w := Running(s.taskChan[0])], taskChan := s.taskChan[1..])
  {
    var step := Work(w, SUCCESS);
    longer := Polls(c, schedule, w);
    Extend(c, longer, step);
    longer := longer + [step];
    Extend(c, longer, step);
    longer := longer + [step];
  }

  lemma Polls(c: Config, schedule: seq<Action>, w: nat) returns (longer: seq<Action>)
    requires Runs(c, schedule)
    requires var s := After(c, schedule); !s.stop && w < |s.workers| && s.workers[w] == Outer
    ensures Runs(c, longer)
    ensures var s := After(c, schedule); After(c, longer) == s.(workers := s.workers[w := Poll])
  {
    var step := Work(w, SUCCESS);
    longer := schedule;
    Extend(c, longer, step);
    longer := longer + [step];
    Extend(c, longer, step);
    longer := longer + [step];
  }

  /** Worker `w` has a successful result to send. */
  lemma Succeeds(c: Config, schedule: seq<Action>, w: nat) returns (longer: seq<Action>)
    requires Runs(c, schedule)
    requires var s := After(c, schedule); w < |s.workers| && s.workers[w].Running?
    ensures Runs(c, longer)
    ensures var s := After(c, schedule);
            After(c, longer) == s.(workers := s.workers[w := Sending(Item(s.workers[w].pos, w, SUCCESS))])
  {
    Extend(c, schedule, Work(w, SUCCESS));
    longer := schedule + [Work(w, SUCCESS)];
  }

  lemma Delivers(c: Config, schedule: seq<Action>, w: nat) returns (longer: seq<Action>)
    requires Runs(c, schedule)
    requires var s := After(c, schedule);
             w < |s.workers| && s.workers[w].Sending? && |s.resultChan| < c.resultCap && !s.collector.Returned?
    ensures Runs(c, longer)
    ensures var s := After(c, schedule);
            After(c, longer) == s.(workers := s.workers[w := Outer], resultChan := s.resultChan + [s.workers[w].item])
  {
    assert NextPc(After(c, schedule), w, SUCCESS) == Outer;
    Extend(c, schedule, Work(w, SUCCESS));
    longer := schedule + [Work(w, SUCCESS)];
  }

  /** The collector records a success short of the limit. */
  lemma Counts(c: Config, schedule: seq<Action>) returns (longer: seq<Action>)
    requires Runs(c, schedule)
    requires var s := After(c, schedule);
             && s.collector == Listen(false) && s.resultChan != [] && s.resultChan[0].result == SUCCESS
             && s.successCount + 1 < c.limit
    ensures Runs(c, longer)
    ensures var s := After(c, schedule);
            After(c, longer) == s.(resultChan := s.resultChan[1..], results := s.results + [s.resultChan[0]],
                                   successCount := s.successCount + 1)
  {
    Extend(c, schedule, Collect(false));
    longer := schedule + [Collect(false)];
  }

  /** The collector counts a success that reaches the limit, and has not raised the flag yet. */
  lemma Reaches(c: Config, schedule: seq<Action>) returns (longer: seq<Action>)
    requires Runs(c, schedule)
    requires var s := After(c, schedule);
             && s.collector == Listen(false) && s.resultChan != [] && s.resultChan[0].result == SUCCESS
             && s.successCount + 1 >= c.limit > 0
    ensures Runs(c, longer)
    ensures var s := After(c, schedule);
            After(c, longer) == s.(resultChan := s.resultChan[1..], successCount := s.successCount + 1,
                                   collector := StoreFlag(false, s.resultChan[0]))
  {
    Extend(c, schedule, Collect(false));
    longer := schedule + [Collect(false)];
  }

  /** The collector raises the flag, wakes nobody as nobody waits, and records the result. */
  lemma Raises(c: Config, schedule: seq<Action>) returns (longer: seq<Action>)
    requires Runs(c, schedule)
    requires var s := After(c, schedule); s.collector.StoreFlag? && !s.collector.draining && !s.producer.Waiting?
    ensures Runs(c, longer)
    ensures var s := After(c, schedule);
            After(c, longer) == s.(stop := true, collector := Listen(false), results := s.results + [s.collector.item])
  {
    Extend(c, schedule, Collect(false));
    longer := schedule + [Collect(false)];
    Extend(c, longer, Collect(false));
    longer := longer + [Collect(false)];
  }

  // Rounds

  /** `k` tasks have succeeded, everything else is as at the start. */
  ghost predicate Fresh(c: Config, s: State, k: nat) {
    && s.sent == k && s.producer.AtLoop? && s.taskChan == [] && s.resultChan == [] && s.collector == Listen(false)
    && |s.workers| == c.workers && (forall w | 0 <= w < |s.workers| :: s.workers[w] == Outer)
    && s.successCount == k && !s.stop && !s.cancelled
  }

  /** The next task is sent, taken and answered by worker `w`, whose result is not sent yet. */
  lemma Works(c: Config, schedule: seq<Action>, w: nat) returns (longer: seq<Action>)
    requires Runs(c, schedule) && c.taskCap >= 1
    requires var s := After(c, schedule);
             && !s.stop && !s.cancelled && s.producer.AtLoop? && s.sent < |c.plan| && s.taskChan == []
             && w < |s.workers| && s.workers[w] == Outer
    ensures Runs(c, longer)
    ensures var s := After(c, schedule);
            After(c, longer) == s.(sent := s.sent + 1, workers := s.workers[w := Sending(Item(s.sent, w, SUCCESS))])
  {
    var s := After(c, schedule);
    longer := Sends(c, schedule);
    assert After(c, longer).taskChan == [s.sent];
    longer := Takes(c, longer, w);
    longer := Succeeds(c, longer, w);
    assert s.workers[w := Running(s.sent)][w := Sending(Item(s.sent, w, SUCCESS))]
        == s.workers[w := Sending(Item(s.sent, w, SUCCESS))];
  }

  /** The same, with the result sent. */
  lemma Finishes(c: Config, schedule: seq<Action>, w: nat) returns (longer: seq<Action>)
    requires Runs(c, schedule) && c.taskCap >= 1
    requires var s := After(c, schedule);
             && !s.stop && !s.cancelled && s.producer.AtLoop? && s.sent < |c.plan| && s.taskChan == []
             && w < |s.workers| && s.workers[w] == Outer && |s.resultChan| < c.resultCap && !s.collector.Returned?
    ensures Runs(c, longer)
    ensures var s := After(c, schedule);
            After(c, longer) == s.(sent := s.sent + 1, resultChan := s.resultChan + [Item(s.sent, w, SUCCESS)])
  {
    var s := After(c, schedule);
    longer := Works(c, schedule, w);
    longer := Delivers(c, longer, w);
    assert s.workers[w := Sending(Item(s.sent, w, SUCCESS))][w := Outer] == s.workers;
  }

  lemma {:induction false} Rounds(c: Config, k: nat) returns (schedule: seq<Action>)
    requires ValidConfig(c) && k < c.limit && k <= |c.plan|
    ensures Runs(c, schedule) && Fresh(c, After(c, schedule), k)
  {
    if k == 0 {
      schedule := [];
    } else {
      schedule := Rounds(c, k - 1);
      schedule := Finishes(c, schedule, 0);
      schedule := Counts(c, schedule);
    }
  }

  // The deadlock

  lemma {:induction false} Exits(c: Config, schedule: seq<Action>, n: nat) returns (longer: seq<Action>)
    requires Runs(c, schedule)
    requires var s := After(c, schedule);
             s.stop && n <= |s.workers| && forall w | 0 <= w < |s.workers| :: s.workers[w] == Outer
    ensures Runs(c, longer)
    ensures var s, t := After(c, schedule), After(c, longer);
            && t == s.(workers := t.workers) && |t.workers| == |s.workers|
            && forall w | 0 <= w < |t.workers| :: t.workers[w] == if w < n then Exited else Outer
  {
    if n == 0 {
      longer := schedule;
    } else {
      longer := Exits(c, schedule, n - 1);
      Extend(c, longer, Work(n - 1, SUCCESS));
      longer := longer + [Work(n - 1, SUCCESS)];
    }
  }

  /** The channel is full, the flag is up, and the producer has read it clear but not registered. */
  lemma FullAndRaised(c: Config) returns (schedule: seq<Action>)
    requires ValidConfig(c) && CanDeadlock(c)
    ensures Runs(c, schedule)
    ensures var s := After(c, schedule);
            && s.stop && !s.cancelled && s.producer.Checked? && |s.taskChan| == c.taskCap && s.resultChan == []
            && s.collector == Listen(false) && |s.workers| == c.workers
            && forall w | 0 <= w < |s.workers| :: s.workers[w] == Outer
  {
    schedule := Rounds(c, c.limit - 1);
    schedule := Works(c, schedule, 0);
    schedule := SendsMany(c, schedule, c.taskCap);
    schedule := Checks(c, schedule);
    schedule := Delivers(c, schedule, 0);
    schedule := Reaches(c, schedule);
    schedule := Raises(c, schedule);
  }

  /** With the flag check and the registration in two steps, as the source has them, every
      configuration whose plan is long enough has a run that loses the wakeup and never returns. */
  lemma LostWakeupHappens(c: Config) returns (schedule: seq<Action>)
    requires ValidConfig(c) && CanDeadlock(c)
    ensures Runs(c, schedule) && !After(c, schedule).cancelled && LostWakeup(c, After(c, schedule))
  {
    schedule := FullAndRaised(c);
    Extend(c, schedule, Produce(false));
    schedule := schedule + [Produce(false)];
    schedule := Exits(c, schedule, c.workers);
    Extend(c, schedule, Collect(false));
    schedule := schedule + [Collect(false)];
  }

  /** An uncancelled run that has not returned and cannot go on. */
  ghost predicate Deadlocks(c: Config, schedule: seq<Action>) {
    && Runs(c, schedule) && !After(c, schedule).cancelled && !After(c, schedule).collector.Returned?
    && Stuck(c, After(c, schedule))
  }

  /** Deadlock freedom, exactly: a pool has a deadlocking run if and only if the check is split, a
      limit is set, and the plan is longer than the limit and the task channel together. */
  lemma DeadlockIff(c: Config)
    requires ValidConfig(c)
    ensures (exists schedule :: Deadlocks(c, schedule)) <==> CanDeadlock(c)
  {
    if CanDeadlock(c) {
      var schedule := LostWakeupHappens(c);
      StuckIffLostWakeup(c, schedule);
      assert Deadlocks(c, schedule);
    } else {
      forall schedule | Runs(c, schedule) ensures !Deadlocks(c, schedule) {
        if !After(c, schedule).cancelled && !After(c, schedule).collector.Returned? {
          NeverStuck(c, schedule);
        }
      }
    }
  }

  // The overshoot

  /** The limit is reached but the flag is not up; `n` successes wait in the result channel and the
      first `k` workers have one more each to send. */
  ghost predicate Loaded(c: Config, s: State, n: nat, k: nat) {
    && s.sent == c.limit + n + k && s.producer.AtLoop? && s.taskChan == [] && !s.stop && !s.cancelled
    && s.collector.StoreFlag? && !s.collector.draining && s.successCount == c.limit
    && |s.resultChan| == n && Full(s.resultChan)
    && |s.workers| == c.workers && Senders(s.workers, 0, k)
  }

  ghost predicate Full(items: seq<Item>) {
    forall i | 0 <= i < |items| :: items[i].result == SUCCESS
  }

  /** The workers from `from` to `to` have a success to send, all others are at the loop. */
  ghost predicate Senders(ws: seq<Worker>, from: nat, to: nat) {
    forall w | 0 <= w < |ws| ::
      if from <= w < to then ws[w].Sending? && ws[w].item.result == SUCCESS else ws[w] == Outer
  }

  lemma {:induction false} Loads(c: Config, n: nat) returns (schedule: seq<Action>)
    requires ValidConfig(c) && c.limit > 0 && n <= c.resultCap && c.limit + n <= |c.plan|
    ensures Runs(c, schedule) && Loaded(c, After(c, schedule), n, 0)
  {
    if n == 0 {
      schedule := Rounds(c, c.limit - 1);
      schedule := Finishes(c, schedule, 0);
      schedule := Reaches(c, schedule);
    } else {
      schedule := Loads(c, n - 1);
      schedule := Finishes(c, schedule, 0);
    }
  }

  lemma {:induction false} LoadsWorkers(c: Config, k: nat) returns (schedule: seq<Action>)
    requires ValidConfig(c) && c.limit > 0 && k <= c.workers && c.limit + c.resultCap + k <= |c.plan|
    ensures Runs(c, schedule) && Loaded(c, After(c, schedule), c.resultCap, k)
  {
    if k == 0 {
      schedule := Loads(c, c.resultCap);
    } else {
      schedule := LoadsWorkers(c, k - 1);
      schedule := Works(c, schedule, k - 1);
    }
  }

  /** The flag is up, `n` successes wait in the result channel, workers from `k` on have one to send. */
  ghost predicate Unloading(c: Config, s: State, n: nat, k: nat) {
    && s.stop && !s.cancelled && s.producer.AtLoop? && s.collector == Listen(false)
    && |s.resultChan| == n && Full(s.resultChan)
    && |s.workers| == c.workers && k <= c.workers && Senders(s.workers, k, c.workers)
    && s.successCount + n + (c.workers - k) == c.limit + c.resultCap + c.workers
  }

  lemma TakesOne(c: Config, schedule: seq<Action>, n: nat, k: nat) returns (longer: seq<Action>)
    requires Runs(c, schedule) && c.limit > 0 && n > 0 && Unloading(c, After(c, schedule), n, k)
    requires After(c, schedule).successCount >= c.limit
    ensures Runs(c, longer) && Unloading(c, After(c, longer), n - 1, k)
    ensures After(c, longer).successCount >= c.limit
  {
    longer := Reaches(c, schedule);
    longer := Raises(c, longer);
  }

  lemma {:induction false} Empties(c: Config, n: nat) returns (schedule: seq<Action>)
    requires ValidConfig(c) && c.limit > 0 && n <= c.resultCap && c.limit + c.resultCap + c.workers <= |c.plan|
    ensures Runs(c, schedule) && Unloading(c, After(c, schedule), n, 0) && After(c, schedule).successCount >= c.limit
    decreases c.resultCap - n
  {
    if n == c.resultCap {
      schedule := LoadsWorkers(c, c.workers);
      schedule := Raises(c, schedule);
    } else {
      schedule := Empties(c, n + 1);
      schedule := TakesOne(c, schedule, n + 1, 0);
    }
  }

  lemma {:induction false} Unloads(c: Config, k: nat) returns (schedule: seq<Action>)
    requires ValidConfig(c) && c.limit > 0 && k <= c.workers && c.limit + c.resultCap + c.workers <= |c.plan|
    ensures Runs(c, schedule) && Unloading(c, After(c, schedule), 0, k) && After(c, schedule).successCount >= c.limit
  {
    if k == 0 {
      schedule := Empties(c, 0);
    } else {
      schedule := Unloads(c, k - 1);
      schedule := Delivers(c, schedule, k - 1);
      schedule := TakesOne(c, schedule, 1, k);
    }
  }

  /** A run that records as many successes as the bound allows. */
  ghost predicate Overshoots(c: Config, schedule: seq<Action>) {
    Runs(c, schedule) && Successes(After(c, schedule).results) == c.limit + c.resultCap + c.workers
  }

  /** The overshoot bound is exact: some run attains it whenever the plan has that many tasks. */
  lemma OvershootIff(c: Config)
    requires ValidConfig(c) && c.limit > 0
    ensures (exists schedule :: Overshoots(c, schedule)) <==> |c.plan| >= c.limit + c.resultCap + c.workers
  {
    if |c.plan| >= c.limit + c.resultCap + c.workers {
      var schedule := Unloads(c, c.workers);
      SuccessCountExact(c, schedule);
      assert After(c, schedule).results + [] == After(c, schedule).results;
      assert Overshoots(c, schedule);
    } else {
      forall schedule | Runs(c, schedule) ensures !Overshoots(c, schedule) {
        InvAlways(c, schedule);
        NumberedAlways(c, schedule);
        CountAtMostLength(After(c, schedule).results, IsSuccess());
      }
    }
  }
}
