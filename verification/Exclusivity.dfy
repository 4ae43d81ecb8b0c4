/** Workers of one pool running side by side: the operations of src/worker.rs in the global order
    in which they happen, for any interleaving and any answers of the environment. */
module Exclusivity {
  import opened Types
  import opened Sequences
  import opened Isolation
  import opened WorkerTask

  datatype Entry = Entry(worker: nat, op: Op)

  /** Who works, and what the environment answers to each worker's tasks in turn. */
  datatype Pool = Pool(mode: IsolationMode, assignments: seq<Assignment>, tasks: seq<seq<Answers>>)

  ghost predicate ValidPool(p: Pool) {
    |p.tasks| == |p.assignments|
  }

  function Of(log: seq<Entry>, w: nat): seq<Op> {
    if log == [] then []
    else Of(log[..|log| - 1], w) + if log[|log| - 1].worker == w then [log[|log| - 1].op] else []
  }

  function Ops(log: seq<Entry>): seq<Op> {
    if log == [] then [] else Ops(log[..|log| - 1]) + [log[|log| - 1].op]
  }

  function ProgramOf(p: Pool, w: nat): seq<Op>
    requires ValidPool(p) && w < |p.assignments|
  {
    Program(p.mode, p.assignments[w], p.tasks[w])
  }

  /** A log of what happened so far: each worker is somewhere in its own program. */
  ghost predicate Interleaving(p: Pool, log: seq<Entry>)
    requires ValidPool(p)
  {
    && (forall k | 0 <= k < |log| :: log[k].worker < |p.assignments|)
    && forall w | 0 <= w < |p.assignments| :: Of(log, w) <= ProgramOf(p, w)
  }

  function StatusOf(p: Pool, log: seq<Entry>, w: nat): Option<Status>
    requires w < |p.assignments|
  {
    StatusAfter(p.mode, p.assignments[w].qnum, Of(log, w))
  }

  /** The log shows every worker obeying the discipline of its own queue number. */
  ghost predicate Disciplined(p: Pool, log: seq<Entry>) {
    && (forall k | 0 <= k < |log| :: log[k].worker < |p.assignments|)
    && forall w | 0 <= w < |p.assignments| :: StatusOf(p, log, w).Some?
  }

  lemma InterleavingIsDisciplined(p: Pool, log: seq<Entry>)
    requires ValidPool(p) && Interleaving(p, log)
    ensures Disciplined(p, log)
  {
    forall w | 0 <= w < |p.assignments| ensures StatusOf(p, log, w).Some? {
      var ops := ProgramOf(p, w);
      ProgramFollows(p.mode, p.assignments[w], p.tasks[w]);
      PrefixFollows(p.mode, p.assignments[w].qnum, ops, |Of(log, w)|);
      assert ops[..|Of(log, w)|] == Of(log, w);
    }
  }

  lemma DisciplineOfPrefix(p: Pool, log: seq<Entry>)
    requires Disciplined(p, log) && log != []
    ensures Disciplined(p, log[..|log| - 1])
  {
    var n := |log| - 1;
    assert forall k | 0 <= k < n :: log[..n][k] == log[k];
    forall w | 0 <= w < |p.assignments| ensures StatusOf(p, log[..n], w).Some? {
      assert StatusOf(p, log, w).Some?;
      OfLast(log, w);
      if log[n].worker == w {
        StatusAppend(p.mode, p.assignments[w].qnum, Of(log[..n], w), log[n].op);
      }
    }
  }

  lemma OfLast(log: seq<Entry>, w: nat)
    requires log != []
    ensures var e := log[|log| - 1];
            Of(log, w) == if e.worker == w then Of(log[..|log| - 1], w) + [e.op] else Of(log[..|log| - 1], w)
  {
  }

  predicate Touches(op: Op, q: nat) {
    op == Start(q) || op == Stop(q) || op == StopFailed(q) || op == Connect(q)
  }

  lemma StepTouches(mode: IsolationMode, q: nat, s: Status, op: Op)
    requires Step(mode, q, s, op).Some?
    ensures forall n: nat :: Touches(op, n) ==> n == q
  {
  }

  /** A worker only touches its own queue number. */
  lemma OwnNumber(p: Pool, log: seq<Entry>)
    requires Disciplined(p, log) && log != []
    ensures var e := log[|log| - 1]; forall n: nat :: Touches(e.op, n) ==> n == p.assignments[e.worker].qnum
  {
    var e, init := log[|log| - 1], log[..|log| - 1];
    var q := p.assignments[e.worker].qnum;
    assert StatusOf(p, log, e.worker).Some?;
    OfLast(log, e.worker);
    StatusAppend(p.mode, q, Of(init, e.worker), e.op);
    StepTouches(p.mode, q, StatusOf(p, init, e.worker).value, e.op);
  }

  lemma UntouchedOpen(ops: seq<Op>, op: Op, q: nat)
    requires !Touches(op, q)
    ensures Open(ops + [op], q) == Open(ops, q)
  {
    OpenAppend(ops, op, q);
  }

  lemma OpsLast(log: seq<Entry>)
    requires log != []
    ensures Ops(log) == Ops(log[..|log| - 1]) + [log[|log| - 1].op]
  {
  }

  /** With distinct numbers the open starts on a worker's number are the worker's own. */
  lemma {:induction false} OnlyTheOwner(p: Pool, log: seq<Entry>, w: nat)
    requires Disciplined(p, log) && DistinctQnums(p.assignments) && w < |p.assignments|
    ensures Open(Ops(log), p.assignments[w].qnum) == Open(Of(log, w), p.assignments[w].qnum)
  {
    if log != [] {
      var init, e, q := log[..|log| - 1], log[|log| - 1], p.assignments[w].qnum;
      DisciplineOfPrefix(p, log);
      OnlyTheOwner(p, init, w);
      OwnNumber(p, log);
      OpsLast(log);
      OfLast(log, w);
      assert e.worker != w ==> p.assignments[e.worker].qnum != q;
      OpenAppend(Ops(init), e.op, q);
      OpenAppend(Of(init, w), e.op, q);
      if e.worker != w {
        UntouchedOpen(Ops(init), e.op, q);
      }
    }
  }

  /** Nothing starts or stops on a number that no worker has. */
  lemma {:induction false} NobodyElse(p: Pool, log: seq<Entry>, q: nat)
    requires Disciplined(p, log) && forall w | 0 <= w < |p.assignments| :: p.assignments[w].qnum != q
    ensures Occurs(Ops(log), Start(q)) == 0 && Occurs(Ops(log), Stop(q)) == 0 && Occurs(Ops(log), StopFailed(q)) == 0
  {
    if log != [] {
      var init, e := log[..|log| - 1], log[|log| - 1];
      DisciplineOfPrefix(p, log);
      NobodyElse(p, init, q);
      OwnNumber(p, log);
      OpsLast(log);
      assert !Touches(e.op, q);
      OccursAppend(Ops(init), e.op, Start(q));
      OccursAppend(Ops(init), e.op, Stop(q));
      OccursAppend(Ops(init), e.op, StopFailed(q));
    }
  }

  lemma OpenAtMostOne(p: Pool, log: seq<Entry>, q: nat)
    requires Disciplined(p, log) && DistinctQnums(p.assignments)
    ensures 0 <= Open(Ops(log), q) <= 1
  {
    if w :| 0 <= w < |p.assignments| && p.assignments[w].qnum == q {
      OnlyTheOwner(p, log, w);
      assert StatusOf(p, log, w).Some?;
      StatusCounts(p.mode, q, Of(log, w), Rule(0, 0, 0));
    } else {
      NobodyElse(p, log, q);
    }
  }

  lemma {:induction false} OpsWellOpen(p: Pool, log: seq<Entry>, q: nat)
    requires Disciplined(p, log) && DistinctQnums(p.assignments)
    ensures WellOpen(Ops(log), q)
  {
    OpenAtMostOne(p, log, q);
    if log != [] {
      var init := log[..|log| - 1];
      DisciplineOfPrefix(p, log);
      OpsWellOpen(p, init, q);
      OpsLast(log);
      forall k | 0 <= k <= |Ops(log)| ensures 0 <= Open(FirstOps(Ops(log), k), q) <= 1 {
        if k <= |Ops(init)| {
          assert FirstOps(Ops(log), k) == FirstOps(Ops(init), k);
        } else {
          assert FirstOps(Ops(log), k) == Ops(log);
        }
      }
    }
  }

  /** System-wide exclusivity of attempts: at every moment at most one start on a number has not had
      its stop attempt. So the instances alive on it are at most one more than the stops on it that
      have failed. */
  lemma OneOpenPerQueue(p: Pool, log: seq<Entry>, q: nat)
    requires ValidPool(p) && Interleaving(p, log) && DistinctQnums(p.assignments)
    ensures 0 <= Open(Ops(log), q) <= 1
    ensures 0 <= Alive(Ops(log), q) <= 1 + Occurs(Ops(log), StopFailed(q))
  {
    InterleavingIsDisciplined(p, log);
    OpenAtMostOne(p, log, q);
  }

  /** System-wide exclusivity of instances, exactly: at most one nfqws is alive on a number at every
      moment if and only if no start on it follows a failed stop on it. */
  lemma OneInstanceIff(p: Pool, log: seq<Entry>, q: nat)
    requires ValidPool(p) && Interleaving(p, log) && DistinctQnums(p.assignments)
    ensures (forall k | 0 <= k <= |Ops(log)| :: Alive(FirstOps(Ops(log), k), q) <= 1) <==> !Reused(Ops(log), q)
  {
    InterleavingIsDisciplined(p, log);
    OpsWellOpen(p, log, q);
    AloneIff(Ops(log), q);
  }

  /** What a worker's status was before its probe connected. */
  lemma ConnectStatus(p: Pool, log: seq<Entry>)
    requires Disciplined(p, log) && log != [] && log[|log| - 1].op.Connect?
    ensures var init, w := log[..|log| - 1], log[|log| - 1].worker;
            && Disciplined(p, init) && StatusOf(p, init, w).Some?
            && var s := StatusOf(p, init, w).value;
               !s.Off? && (p.mode.SourcePort? ==> s.Guarded? && StatusOf(p, log, w) == Some(Probed(s.rule)))
  {
    var init, w := log[..|log| - 1], log[|log| - 1].worker;
    DisciplineOfPrefix(p, log);
    assert StatusOf(p, init, w).Some? && StatusOf(p, log, w).Some?;
    OfLast(log, w);
    StatusAppend(p.mode, p.assignments[w].qnum, Of(init, w), log[|log| - 1].op);
  }

  lemma ConnectRule(p: Pool, log: seq<Entry>) returns (rule: Rule)
    requires Disciplined(p, log) && log != [] && log[|log| - 1].op.Connect? && p.mode.SourcePort?
    ensures var w := log[|log| - 1].worker;
            rule.qnum == p.assignments[w].qnum && OpenRules(Of(log, w), rule) == 1
  {
    ConnectStatus(p, log);
    var w := log[|log| - 1].worker;
    var q := p.assignments[w].qnum;
    rule := StatusOf(p, log, w).value.rule;
    GuardedRule(p.mode, q, Of(log, w));
    StatusCounts(p.mode, q, Of(log, w), rule);
  }

  /** When a worker's probe connects, its own nfqws is started and not stopped, and in source-port
      mode the rule that leads to its number is in place. */
  lemma {:induction false} ProbeIsCovered(p: Pool, log: seq<Entry>)
    requires ValidPool(p) && Interleaving(p, log) && DistinctQnums(p.assignments)
    requires log != [] && log[|log| - 1].op.Connect?
    ensures var w := log[|log| - 1].worker;
            && Open(Ops(log[..|log| - 1]), p.assignments[w].qnum) == 1
            && (p.mode.SourcePort? ==>
                  exists rule: Rule :: rule.qnum == p.assignments[w].qnum
                                       && OpenRules(Of(log, w), rule) == 1 && RulesInPlace(Of(log, w), rule) >= 1)
  {
    InterleavingIsDisciplined(p, log);
    ConnectStatus(p, log);
    var before, w := log[..|log| - 1], log[|log| - 1].worker;
    OnlyTheOwner(p, before, w);
    StatusCounts(p.mode, p.assignments[w].qnum, Of(before, w), Rule(0, 0, 0));
    if p.mode.SourcePort? {
      var rule := ConnectRule(p, log);
    }
  }

  lemma {:induction false} GuardedRule(mode: IsolationMode, q: nat, trace: seq<Op>)
    requires StatusAfter(mode, q, trace).Some?
    ensures var s := StatusAfter(mode, q, trace).value; s.Guarded? || s.Probed? ==> s.rule.qnum == q
  {
    if trace != [] {
      GuardedRule(mode, q, trace[..|trace| - 1]);
    }
  }

  /** Once every worker has finished its tasks every start has had its stop attempt, and exactly the
      instances whose stop failed are alive. */
  lemma OnlyFailuresAtTheEnd(p: Pool, log: seq<Entry>, q: nat)
    requires ValidPool(p) && Interleaving(p, log) && DistinctQnums(p.assignments)
    requires forall w | 0 <= w < |p.assignments| :: Of(log, w) == ProgramOf(p, w)
    ensures Open(Ops(log), q) == 0 && Alive(Ops(log), q) == Occurs(Ops(log), StopFailed(q))
  {
    InterleavingIsDisciplined(p, log);
    if w :| 0 <= w < |p.assignments| && p.assignments[w].qnum == q {
      OnlyTheOwner(p, log, w);
      assert Of(log, w) == ProgramOf(p, w);
      OnlyFailuresAreLeft(p.mode, p.assignments[w], p.tasks[w], Rule(0, 0, 0));
    } else {
      NobodyElse(p, log, q);
    }
  }

  // ---------------------------------------------------------------- the generated assignments

  /** No two workers of any run have a start on the same number that has not had its stop attempt. */
  ghost predicate Exclusive(p: Pool)
    requires ValidPool(p)
  {
    forall log, q | Interleaving(p, log) :: Open(Ops(log), q) <= 1
  }

  function GeneratedPool(mode: IsolationMode, queueBase: nat, markBase: nat, tasks: seq<seq<Answers>>): Pool {
    Pool(mode, GenerateAssignments(|tasks|, mode, queueBase, markBase), tasks)
  }

  ghost predicate AlwaysExclusive(mode: IsolationMode, queueBase: nat, markBase: nat, workers: nat) {
    forall tasks: seq<seq<Answers>> | |tasks| == workers :: Exclusive(GeneratedPool(mode, queueBase, markBase, tasks))
  }

  /** Generated assignments keep every run exclusive exactly when there are at most 65536 workers.
      Beyond that the sixteen-bit sum wraps, and two workers start on the same number. */
  lemma ExclusiveIffFewWorkers(mode: IsolationMode, queueBase: nat, markBase: nat, workers: nat)
    ensures AlwaysExclusive(mode, queueBase, markBase, workers) <==> workers <= U16
  {
    QnumsDistinctIff(workers, mode, queueBase, markBase);
    if workers <= U16 {
      forall tasks: seq<seq<Answers>> | |tasks| == workers
        ensures Exclusive(GeneratedPool(mode, queueBase, markBase, tasks))
      {
        var p := GeneratedPool(mode, queueBase, markBase, tasks);
        forall log, q | Interleaving(p, log) ensures Open(Ops(log), q) <= 1 {
          OneOpenPerQueue(p, log, q);
        }
      }
    } else {
      Collision(mode, queueBase, markBase, workers);
    }
  }

  const SMOOTH: Answers := Answers(Some(40000), true, true, None, true, true)

  lemma Collision(mode: IsolationMode, queueBase: nat, markBase: nat, workers: nat)
    requires workers > U16
    ensures !AlwaysExclusive(mode, queueBase, markBase, workers)
  {
    var tasks := seq(workers, w => [SMOOTH]);
    var p := GeneratedPool(mode, queueBase, markBase, tasks);
    var q := WorkerQnum(queueBase, 0);
    SameQnumIff(queueBase, 0, U16);
    var log := [Entry(0, Start(q)), Entry(U16, Start(q))];
    TwoStarts(q, 0, U16);
    forall w | 0 <= w < workers ensures Of(log, w) <= ProgramOf(p, w) {
      FirstOp(mode, p.assignments[w]);
    }
    assert Interleaving(p, log) && Open(Ops(log), q) == 2;
    assert !Exclusive(p);
  }

  lemma TwoStarts(q: nat, u: nat, v: nat)
    requires u != v
    ensures var log := [Entry(u, Start(q)), Entry(v, Start(q))];
            && Open(Ops(log), q) == 2
            && forall w: nat :: Of(log, w) == if w == u || w == v then [Start(q)] else []
  {
    var log := [Entry(u, Start(q)), Entry(v, Start(q))];
    assert log[..1] == [Entry(u, Start(q))];
    assert Ops(log[..1]) == [Start(q)];
    assert Ops(log) == [Start(q), Start(q)];
    assert [Start(q), Start(q)][..1] == [Start(q)];
    OpenAppend([], Start(q), q);
    OpenAppend([Start(q)], Start(q), q);
    forall w: nat ensures Of(log, w) == if w == u || w == v then [Start(q)] else [] {
      assert Of(log[..1], w) == if w == u then [Start(q)] else [];
    }
  }

  lemma FirstOp(mode: IsolationMode, a: Assignment)
    ensures Program(mode, a, [SMOOTH]) != [] && Program(mode, a, [SMOOTH])[0] == Start(a.qnum)
  {
    FlatMapOne(OpsOf(mode, a), SMOOTH);
  }
}
