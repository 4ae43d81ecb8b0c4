/** The worker pool of PoolProtocol with its real backend: while a worker is in its backend call
    it performs, one by one, the operations of WorkerTask. Moves of the pool and operations of
    different workers interleave freely. */
module PoolIsolation {
  import opened Types
  import opened PoolProtocol
  import opened PoolSafety
  import opened PoolResults
  import opened PoolOrigins
  import opened Sequences
  import opened Isolation
  import opened WorkerTask
  import opened Exclusivity
  import Bayes
  import Scheduler

  /** `answers` is what the environment answers to the probes of each task, one per target. A task is
      taken by at most one worker, at most once, so naming its answers in advance excludes no run. */
  datatype Setup = Setup(c: Config, mode: IsolationMode, assignments: seq<Assignment>, answers: nat -> seq<Answers>)

  ghost predicate ValidSetup(u: Setup) {
    |u.assignments| == u.c.workers && DistinctQnums(u.assignments) && forall p: nat :: u.answers(p) != []
  }

  /** `begun` are the probes each worker has started on, `ahead` the operations it has still to
      perform in its backend call. */
  datatype System = System(pool: State, log: seq<Entry>, begun: seq<seq<Answers>>, ahead: seq<seq<Op>>)

  datatype Move = PoolMove(a: Action) | OpMove(w: nat)

  function Initially(u: Setup): System {
    System(Init(u.c), [], seq(u.c.workers, w => []), seq(u.c.workers, w => []))
  }

  predicate EntersBackend(s: State, a: Action) {
    a.Work? && a.w < |s.workers| && s.workers[a.w].Holding? && !s.cancelled
  }

  predicate LeavesBackend(s: State, a: Action) {
    a.Work? && a.w < |s.workers| && s.workers[a.w].Running?
  }

  /** The result of a backend call is the summary of its probes' reports. */
  predicate Summed(u: Setup, s: State, a: Action)
    requires LeavesBackend(s, a) && |s.workers| == |u.assignments|
  {
    var targets := u.answers(s.workers[a.w].pos);
    targets != [] && a.result == Summary(Reports(u.mode, u.assignments[a.w], targets)).result
  }

  predicate Possible(u: Setup, s: System, m: Move) {
    && |s.begun| == |s.ahead| == |s.pool.workers| == |u.assignments|
    && match m
       case PoolMove(a) => Enabled(u.c, s.pool, a) && (LeavesBackend(s.pool, a) ==> s.ahead[a.w] == [] && Summed(u, s.pool, a))
       case OpMove(w) => w < |s.ahead| && s.ahead[w] != []
  }

  function Moved(u: Setup, s: System, m: Move): System
    requires Possible(u, s, m)
  {
    match m
    case PoolMove(a) =>
      var t := s.(pool := Next(u.c, s.pool, a));
      if EntersBackend(s.pool, a)
      then
        var targets := u.answers(s.pool.workers[a.w].pos);
        t.(begun := s.begun[a.w := s.begun[a.w] + targets],
              ahead := s.ahead[a.w := Program(u.mode, u.assignments[a.w], targets)])
      else t
    case OpMove(w) =>
      s.(log := s.log + [Entry(w, s.ahead[w][0])], ahead := s.ahead[w := s.ahead[w][1..]])
  }

  predicate Behaves(u: Setup, moves: seq<Move>)
    decreases |moves|, 0
  {
    moves == [] ||
    (var n := |moves| - 1; Behaves(u, moves[..n]) && Possible(u, Reached(u, moves[..n]), moves[n]))
  }

  function Reached(u: Setup, moves: seq<Move>): System
    requires Behaves(u, moves)
    decreases |moves|, 1
  {
    if moves == [] then Initially(u)
    else var n := |moves| - 1; Moved(u, Reached(u, moves[..n]), moves[n])
  }

  // ---------------------------------------------------------------- the pool underneath

  function Schedule(moves: seq<Move>): seq<Action> {
    if moves == [] then []
    else
      var n := |moves| - 1;
      Schedule(moves[..n]) + if moves[n].PoolMove? then [moves[n].a] else []
  }

  /** Without the operations a behaviour is a run of the pool, so every pool theorem holds of it. */
  lemma {:induction false} ScheduleRuns(u: Setup, moves: seq<Move>)
    requires Behaves(u, moves)
    ensures Runs(u.c, Schedule(moves)) && After(u.c, Schedule(moves)) == Reached(u, moves).pool
  {
    if moves != [] {
      var n := |moves| - 1;
      ScheduleRuns(u, moves[..n]);
      if moves[n].PoolMove? {
        assert (Schedule(moves[..n]) + [moves[n].a])[..|Schedule(moves[..n])|] == Schedule(moves[..n]);
      } else {
        assert Schedule(moves) == Schedule(moves[..n]);
      }
    }
  }

  // ---------------------------------------------------------------- every worker follows its program

  /** Performed and pending operations of a worker are its program over the probes it began. */
  predicate OnTrack(u: Setup, s: System, w: nat)
    requires w < |s.begun| == |s.ahead| && w < |u.assignments|
  {
    Of(s.log, w) + s.ahead[w] == Program(u.mode, u.assignments[w], s.begun[w])
  }

  ghost predicate Coherent(u: Setup, s: System) {
    && |s.begun| == |s.ahead| == |s.pool.workers| == |u.assignments|
    && (forall k | 0 <= k < |s.log| :: s.log[k].worker < |u.assignments|)
    && (forall w | 0 <= w < |s.ahead| :: OnTrack(u, s, w))
    && (forall w | 0 <= w < |s.ahead| && s.ahead[w] != [] :: s.pool.workers[w].Running?)
  }

  /** Only a worker's own step moves its program counter. */
  lemma OthersStay(u: Setup, s: State, a: Action, w: nat)
    requires Enabled(u.c, s, a) && w < |s.workers| && (a.Work? ==> a.w != w)
    ensures |Next(u.c, s, a).workers| == |s.workers| && Next(u.c, s, a).workers[w] == s.workers[w]
  {
    match a
    case Work(_, _) =>
    case Collect(_) =>
    case Produce(_) =>
    case Cancel =>
  }

  lemma PoolMoveCoherent(u: Setup, s: System, a: Action)
    requires Coherent(u, s) && Possible(u, s, PoolMove(a))
    ensures Coherent(u, Moved(u, s, PoolMove(a)))
  {
    var t := Moved(u, s, PoolMove(a));
    assert t.log == s.log;
    SameWorkers(u, s.pool, a);
    forall w | 0 <= w < |s.ahead|
      ensures OnTrack(u, t, w) && (t.ahead[w] != [] ==> t.pool.workers[w].Running?)
    {
      assert OnTrack(u, s, w);
      if !a.Work? || a.w != w {
        OthersStay(u, s.pool, a, w);
      } else if EntersBackend(s.pool, a) {
        assert s.ahead[w] == [];
        FlatMapConcat(OpsOf(u.mode, u.assignments[w]), s.begun[w], u.answers(s.pool.workers[w].pos));
        assert Of(s.log, w) + [] == Of(s.log, w);
      }
    }
  }

  lemma SameWorkers(u: Setup, s: State, a: Action)
    requires Enabled(u.c, s, a)
    ensures |Next(u.c, s, a).workers| == |s.workers|
  {
    match a
    case Work(_, _) =>
    case Collect(_) =>
    case Produce(_) =>
    case Cancel =>
  }

  lemma MovesOver(done: seq<Op>, ahead: seq<Op>)
    requires ahead != []
    ensures done + [ahead[0]] + ahead[1..] == done + ahead
  {
  }

  lemma OpMoveCoherent(u: Setup, s: System, w: nat)
    requires Coherent(u, s) && Possible(u, s, OpMove(w))
    ensures Coherent(u, Moved(u, s, OpMove(w)))
  {
    var t := Moved(u, s, OpMove(w));
    assert t.log[..|t.log| - 1] == s.log;
    forall v | 0 <= v < |s.ahead| ensures OnTrack(u, t, v) {
      assert OnTrack(u, s, v);
      OfLast(t.log, v);
      if v == w {
        MovesOver(Of(s.log, w), s.ahead[w]);
      }
    }
  }

  lemma {:induction false} CoherentAlways(u: Setup, moves: seq<Move>)
    requires ValidSetup(u) && Behaves(u, moves)
    ensures Coherent(u, Reached(u, moves))
  {
    if moves != [] {
      var n := |moves| - 1;
      CoherentAlways(u, moves[..n]);
      match moves[n]
      case PoolMove(a) => PoolMoveCoherent(u, Reached(u, moves[..n]), a);
      case OpMove(w) => OpMoveCoherent(u, Reached(u, moves[..n]), w);
    }
  }

  function PoolOf(u: Setup, s: System): Pool {
    Pool(u.mode, u.assignments, s.begun)
  }

  lemma ReachedInterleaves(u: Setup, moves: seq<Move>)
    requires ValidSetup(u) && Behaves(u, moves)
    ensures var s := Reached(u, moves);
            ValidPool(PoolOf(u, s)) && Interleaving(PoolOf(u, s), s.log)
  {
    CoherentAlways(u, moves);
    var s := Reached(u, moves);
    forall w | 0 <= w < |u.assignments| ensures Of(s.log, w) <= ProgramOf(PoolOf(u, s), w) {
      assert OnTrack(u, s, w);
    }
  }

  // ---------------------------------------------------------------- main theorems

  /** At every moment of every pool run at most one start on a queue number has not had its stop
      attempt, and none on the number of a worker outside its backend call. The instances alive on
      the number exceed that only by the stops on it that have failed. */
  lemma QueuesAreExclusive(u: Setup, moves: seq<Move>, q: nat)
    requires ValidSetup(u) && Behaves(u, moves)
    ensures var s := Reached(u, moves);
            && 0 <= Open(Ops(s.log), q) <= 1
            && Alive(Ops(s.log), q) == Open(Ops(s.log), q) + Occurs(Ops(s.log), StopFailed(q))
            && forall w | 0 <= w < |s.pool.workers| && u.assignments[w].qnum == q && !s.pool.workers[w].Running? ::
                 Open(Ops(s.log), q) == 0
  {
    var s := Reached(u, moves);
    ReachedInterleaves(u, moves);
    CoherentAlways(u, moves);
    OneOpenPerQueue(PoolOf(u, s), s.log, q);
    forall w | 0 <= w < |s.pool.workers| && u.assignments[w].qnum == q && !s.pool.workers[w].Running?
      ensures Open(Ops(s.log), q) == 0
    {
      QuietWorker(u, s, w);
    }
  }

  /** One nfqws per queue number, exactly: over a pool run at most one instance is alive on a number
      at every moment if and only if the run starts none on it after a stop on it has failed. */
  lemma OneInstancePerQueueIff(u: Setup, moves: seq<Move>, q: nat)
    requires ValidSetup(u) && Behaves(u, moves)
    ensures var ops := Ops(Reached(u, moves).log);
            (forall k | 0 <= k <= |ops| :: Alive(FirstOps(ops, k), q) <= 1) <==> !Reused(ops, q)
  {
    ReachedInterleaves(u, moves);
    OneInstanceIff(PoolOf(u, Reached(u, moves)), Reached(u, moves).log, q);
  }

  lemma QuietWorker(u: Setup, s: System, w: nat)
    requires ValidSetup(u) && Coherent(u, s) && w < |s.pool.workers| && s.ahead[w] == []
    requires ValidPool(PoolOf(u, s)) && Interleaving(PoolOf(u, s), s.log)
    ensures Open(Ops(s.log), u.assignments[w].qnum) == 0
    ensures forall rule :: OpenRules(Of(s.log, w), rule) == 0
  {
    assert OnTrack(u, s, w);
    assert Of(s.log, w) + [] == Of(s.log, w);
    InterleavingIsDisciplined(PoolOf(u, s), s.log);
    OnlyTheOwner(PoolOf(u, s), s.log, w);
    forall rule ensures OpenRules(Of(s.log, w), rule) == 0 {
      OnlyFailuresAreLeft(u.mode, u.assignments[w], s.begun[w], rule);
    }
    OnlyFailuresAreLeft(u.mode, u.assignments[w], s.begun[w], Rule(0, 0, 0));
  }

  /** When an uncancelled `run` has returned, every start has had its stop attempt and every installed
      rule its removal attempt: alive and in place is exactly what these attempts failed on. */
  lemma ReturnedRunLeavesOnlyFailures(u: Setup, moves: seq<Move>, q: nat)
    requires ValidSetup(u) && Behaves(u, moves)
    requires Reached(u, moves).pool.collector.Returned? && !Reached(u, moves).pool.cancelled
    ensures var s := Reached(u, moves);
            && Alive(Ops(s.log), q) == Occurs(Ops(s.log), StopFailed(q))
            && forall w, rule | 0 <= w < |s.pool.workers| ::
                 RulesInPlace(Of(s.log, w), rule) == Occurs(Of(s.log, w), RemoveFailed(rule))
  {
    var s := Reached(u, moves);
    forall w, rule | 0 <= w < |s.pool.workers|
      ensures RulesInPlace(Of(s.log, w), rule) == Occurs(Of(s.log, w), RemoveFailed(rule))
    {
      RuleSettled(u, moves, w, rule);
    }
    NothingOpenOnReturn(u, moves, q);
  }

  lemma QuietOnReturn(u: Setup, moves: seq<Move>, w: nat)
    requires ValidSetup(u) && Behaves(u, moves)
    requires Reached(u, moves).pool.collector.Returned? && !Reached(u, moves).pool.cancelled
    requires w < |Reached(u, moves).pool.workers|
    ensures w < |u.assignments| && Open(Ops(Reached(u, moves).log), u.assignments[w].qnum) == 0
    ensures forall rule :: OpenRules(Of(Reached(u, moves).log, w), rule) == 0
  {
    ReachedInterleaves(u, moves);
    CoherentAlways(u, moves);
    ScheduleRuns(u, moves);
    PoolSafety.InvAlways(u.c, Schedule(moves));
    assert Reached(u, moves).pool.workers[w].Exited?;
    QuietWorker(u, Reached(u, moves), w);
  }

  lemma RuleSettled(u: Setup, moves: seq<Move>, w: nat, rule: Rule)
    requires ValidSetup(u) && Behaves(u, moves)
    requires Reached(u, moves).pool.collector.Returned? && !Reached(u, moves).pool.cancelled
    requires w < |Reached(u, moves).pool.workers|
    ensures var ops := Of(Reached(u, moves).log, w); RulesInPlace(ops, rule) == Occurs(ops, RemoveFailed(rule))
  {
    QuietOnReturn(u, moves, w);
    assert OpenRules(Of(Reached(u, moves).log, w), rule) == 0;
  }

  lemma NothingOpenOnReturn(u: Setup, moves: seq<Move>, q: nat)
    requires ValidSetup(u) && Behaves(u, moves)
    requires Reached(u, moves).pool.collector.Returned? && !Reached(u, moves).pool.cancelled
    ensures Open(Ops(Reached(u, moves).log), q) == 0
  {
    var s := Reached(u, moves);
    ReachedInterleaves(u, moves);
    CoherentAlways(u, moves);
    forall w | 0 <= w < |s.pool.workers| ensures Open(Ops(s.log), u.assignments[w].qnum) == 0 {
      QuietOnReturn(u, moves, w);
    }
    QuietEverywhere(u, s, q);
  }

  lemma QuietEverywhere(u: Setup, s: System, q: nat)
    requires Coherent(u, s) && ValidPool(PoolOf(u, s)) && Interleaving(PoolOf(u, s), s.log)
    requires forall w | 0 <= w < |s.pool.workers| :: Open(Ops(s.log), u.assignments[w].qnum) == 0
    ensures Open(Ops(s.log), q) == 0
  {
    if forall w | 0 <= w < |u.assignments| :: u.assignments[w].qnum != q {
      InterleavingIsDisciplined(PoolOf(u, s), s.log);
      NobodyElse(PoolOf(u, s), s.log, q);
    } else {
      var w :| 0 <= w < |u.assignments| && u.assignments[w].qnum == q;
      assert Open(Ops(s.log), u.assignments[w].qnum) == 0;
    }
  }

  // ---------------------------------------------------------------- results stand for probes

  ghost predicate SliceAt<T>(xs: seq<T>, ys: seq<T>, i: nat) {
    i + |ys| <= |xs| && xs[i..i + |ys|] == ys
  }

  /** Among the probes worker `w` has begun are, one after the other, those of task `p`. */
  ghost predicate Began(u: Setup, s: System, w: nat, p: nat) {
    w < |s.begun| && exists i: nat :: SliceAt(s.begun[w], u.answers(p), i)
  }

  /** Whoever is in a backend call, or has a result of one, has begun its probes. */
  ghost predicate AllBegan(u: Setup, s: System) {
    && (forall w: nat | w < |s.pool.workers| && s.pool.workers[w].Running? :: Began(u, s, w, s.pool.workers[w].pos))
    && (forall item | Has(s.pool, item) :: Began(u, s, item.worker, item.pos))
  }

  lemma SliceStays<T>(xs: seq<T>, more: seq<T>, ys: seq<T>, i: nat)
    requires SliceAt(xs, ys, i)
    ensures SliceAt(xs + more, ys, i)
  {
    assert (xs + more)[i..i + |ys|] == xs[i..i + |ys|];
  }

  lemma BeganStays(u: Setup, s: System, m: Move, w: nat, p: nat)
    requires Possible(u, s, m) && Began(u, s, w, p)
    ensures Began(u, Moved(u, s, m), w, p)
  {
    var i: nat :| SliceAt(s.begun[w], u.answers(p), i);
    var t := Moved(u, s, m);
    if t.begun[w] != s.begun[w] {
      SliceStays(s.begun[w], t.begun[w][|s.begun[w]|..], u.answers(p), i);
    }
    assert SliceAt(t.begun[w], u.answers(p), i);
  }

  lemma BeginsOnEntry(u: Setup, s: System, a: Action)
    requires Possible(u, s, PoolMove(a)) && EntersBackend(s.pool, a)
    ensures Began(u, Moved(u, s, PoolMove(a)), a.w, s.pool.workers[a.w].pos)
  {
    var targets := u.answers(s.pool.workers[a.w].pos);
    var t := Moved(u, s, PoolMove(a));
    assert t.begun[a.w] == s.begun[a.w] + targets;
    assert SliceAt(t.begun[a.w], targets, |s.begun[a.w]|);
  }

  lemma RunnersAfter(u: Setup, s: System, a: Action, w: nat)
    requires Possible(u, s, PoolMove(a)) && w < |s.pool.workers|
    ensures |Next(u.c, s.pool, a).workers| == |s.pool.workers|
    ensures Next(u.c, s.pool, a).workers[w].Running? ==>
              || Next(u.c, s.pool, a).workers[w] == s.pool.workers[w]
              || (EntersBackend(s.pool, a) && a.w == w
                  && Next(u.c, s.pool, a).workers[w] == PoolProtocol.Running(s.pool.workers[w].pos))
  {
    SameWorkers(u, s.pool, a);
    if !a.Work? || a.w != w {
      OthersStay(u, s.pool, a, w);
    }
  }

  lemma AllBeganByPool(u: Setup, s: System, a: Action)
    requires AllBegan(u, s) && Possible(u, s, PoolMove(a))
    ensures AllBegan(u, Moved(u, s, PoolMove(a)))
  {
    var m := PoolMove(a);
    var t := Moved(u, s, m);
    SameWorkers(u, s.pool, a);
    forall w: nat | w < |t.pool.workers| && t.pool.workers[w].Running? ensures Began(u, t, w, t.pool.workers[w].pos) {
      RunnersAfter(u, s, a, w);
      if t.pool.workers[w] == s.pool.workers[w] {
        BeganStays(u, s, m, w, s.pool.workers[w].pos);
      } else {
        BeginsOnEntry(u, s, a);
      }
    }
    forall item | Has(t.pool, item) ensures Began(u, t, item.worker, item.pos) {
      MadeStep(u.c, s.pool, a, item);
      BeganStays(u, s, m, item.worker, item.pos);
    }
  }

  lemma {:induction false} AllBeganAlways(u: Setup, moves: seq<Move>)
    requires ValidSetup(u) && Behaves(u, moves)
    ensures AllBegan(u, Reached(u, moves))
  {
    if moves == [] {
      forall item ensures !Has(Init(u.c), item) {
        NothingAtFirst(u.c, item);
      }
    } else {
      var n := |moves| - 1;
      AllBeganAlways(u, moves[..n]);
      var s := Reached(u, moves[..n]);
      match moves[n]
      case PoolMove(a) => AllBeganByPool(u, s, a);
      case OpMove(w) => assert Moved(u, s, OpMove(w)).begun == s.begun && Moved(u, s, OpMove(w)).pool == s.pool;
    }
  }

  /** Every result, cancelled run or not, stands for probes: the worker it names has begun the probes of
      the task it names, and once it is out of its backend call it has performed all operations of
      everything it began. */
  lemma ResultsWereProbed(u: Setup, moves: seq<Move>, item: Item)
    requires ValidSetup(u) && Behaves(u, moves) && Has(Reached(u, moves).pool, item)
    ensures var s := Reached(u, moves);
            && Began(u, s, item.worker, item.pos) && item.worker < |u.assignments| == |s.pool.workers|
            && (!s.pool.workers[item.worker].Running? ==>
                  Of(s.log, item.worker) == Program(u.mode, u.assignments[item.worker], s.begun[item.worker]))
  {
    AllBeganAlways(u, moves);
    CoherentAlways(u, moves);
    var s := Reached(u, moves);
    assert Began(u, s, item.worker, item.pos);
    assert OnTrack(u, s, item.worker);
    assert Of(s.log, item.worker) + [] == Of(s.log, item.worker);
  }

  // ---------------------------------------------------------------- what the run reports

  const NOBODY := Assignment(0, 0, None)

  /** The backend as a function of the task. */
  function Backend(u: Setup): nat -> ProbeResult {
    (p: nat) =>
      if u.answers(p) == [] then ProbeResult(ProbeOutcome.InternalError, None, None)
      else Summary(Reports(u.mode, NOBODY, u.answers(p))).result
  }

  lemma SummedIsBackend(u: Setup, s: State, a: Action)
    requires |s.workers| == |u.assignments| && LeavesBackend(s, a) && Summed(u, s, a)
    ensures a.result == Backend(u)(s.workers[a.w].pos)
  {
    ResultIgnoresWorker(u.mode, u.assignments[a.w], NOBODY, u.answers(s.workers[a.w].pos));
  }

  /** The pool of a behaviour runs a backend whose answers depend on the task alone. */
  lemma {:induction false} BackendIsDeterministic(u: Setup, moves: seq<Move>)
    requires Behaves(u, moves)
    ensures Runs(u.c, Schedule(moves)) && Deterministic(u.c, Backend(u), Schedule(moves))
  {
    ScheduleRuns(u, moves);
    if moves != [] {
      var n := |moves| - 1;
      BackendIsDeterministic(u, moves[..n]);
      ScheduleRuns(u, moves[..n]);
      if moves[n].PoolMove? {
        AnsweredByBackend(u, Reached(u, moves[..n]), moves[n].a);
        assert Schedule(moves)[..|Schedule(moves)| - 1] == Schedule(moves[..n]);
      } else {
        assert Schedule(moves) == Schedule(moves[..n]);
      }
    }
  }

  lemma AnsweredByBackend(u: Setup, s: System, a: Action)
    requires Possible(u, s, PoolMove(a))
    ensures Answered(Backend(u), s.pool, a)
  {
    if LeavesBackend(s.pool, a) {
      SummedIsBackend(u, s.pool, a);
    }
  }

  /** End to end: an uncancelled run with its real backend returns, for a prefix of the plan and in
      plan order, the summary of each task's probes, and the posteriors it leaves are those of the
      sequential fold over these summaries. */
  lemma RunReportsItsProbes(u: Setup, moves: seq<Move>, m: map<string, Bayes.Posterior>)
    requires ValidSetup(u) && ValidConfig(u.c) && IncreasingPlan(u.c) && Behaves(u, moves)
    requires Reached(u, moves).pool.collector.Returned? && !Reached(u, moves).pool.cancelled
    ensures var s := Reached(u, moves).pool; var k, out := Taken(s), SortResults(u.c, s.results);
            && 0 <= k <= |u.c.plan|
            && Outcomes(out) == SequentialRun(u.c, Backend(u))[..k]
            && (k < |u.c.plan| ==> Successes(s.results) >= u.c.limit > 0)
            && Scheduler.InPlan(u.c, out)
            && Bayes.Fold(m, Scheduler.Records(u.c, out))
               == Bayes.Fold(m, Scheduler.SequentialRecords(u.c, Backend(u))[..k])
  {
    ScheduleRuns(u, moves);
    BackendIsDeterministic(u, moves);
    RunIsSequentialPrefix(u.c, Backend(u), Schedule(moves));
    Scheduler.PosteriorsAreSequentialPrefix(u.c, Backend(u), Schedule(moves), m);
  }

  /** A task is reported as a success exactly when the setup of each of its probes worked and each
      probe succeeded. */
  lemma BackendSucceedsIff(u: Setup, p: nat)
    requires u.answers(p) != []
    ensures Backend(u)(p).outcome.Success? <==>
            forall i | 0 <= i < |u.answers(p)| ::
              var e := u.answers(p)[i];
              && e.prepared.Some? && e.starts && (u.mode.SourcePort? ==> e.installs)
              && e.probed.Some? && Successful(e.probed.value)
  {
    var targets := u.answers(p);
    var reports := Reports(u.mode, NOBODY, targets);
    SummaryIsConjunction(Summary(reports), reports);
    forall i | 0 <= i < |targets| ensures reports[i] == TaskOutcome(u.mode, NOBODY, targets[i]) {
      SuccessIff(u.mode, NOBODY, targets[i]);
    }
    forall i | 0 <= i < |targets| {
      SuccessIff(u.mode, NOBODY, targets[i]);
    }
  }
}
