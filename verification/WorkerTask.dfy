/** The life of one probe task in src/worker.rs, recorded as a trace of the external operations
    it performs. The answers of the environment are parameters. */
module WorkerTask {
  import opened Types
  import opened Counting
  import opened Sequences
  import opened Isolation

  datatype Rule = Rule(workerId: nat, qnum: nat, sourcePort: nat)

  /** Calls into nfqws, the firewall and the probe, with their answers. A failed start or install
      leaves nothing behind. A failed stop leaves its instance running, as after a kill that timed
      out (src/nfqws.rs:161-168), and a failed remove leaves its rule in place. */
  datatype Op =
    | Start(qnum: nat) | StartFailed(qnum: nat)
    | Install(rule: Rule) | InstallFailed(rule: Rule)
    | Connect(qnum: nat)
    | Remove(rule: Rule) | RemoveFailed(rule: Rule)
    | Stop(qnum: nat) | StopFailed(qnum: nat)

  datatype TaskReport = TaskReport(result: ProbeResult, qnum: Option<nat>, sourcePort: Option<nat>)

  /** What the environment answers during one task: the prepared source port, whether the calls
      succeed, and the probe's report, with None for the total timeout. */
  datatype Answers = Answers(
    prepared: Option<nat>, starts: bool, installs: bool, probed: Option<TaskReport>,
    removes: bool, stops: bool)

  function FailedSetup(qnum: nat, sourcePort: Option<nat>, errorClass: ProbeErrorClass): TaskReport {
    TaskReport(
      ProbeResult(ProbeOutcome.InternalError, Some(FailureKind.InfrastructureFailure), Some(errorClass)),
      Some(qnum), sourcePort)
  }

  function TotalTimeout(qnum: nat, sourcePort: nat): TaskReport {
    TaskReport(ProbeResult(Timeout, Some(StrategyFailure), Some(ReadTimeout)), Some(qnum), Some(sourcePort))
  }

  // ---------------------------------------------------------------- the discipline

  /** Where a worker stands with its queue number, by its own account: a stop that failed is done. */
  datatype Status = Off | Up | InstallRefused | Guarded(rule: Rule) | Probed(rule: Rule) | Finishing

  /** The legal operations of a worker that owns queue number `q`. In source-port mode the probe
      runs under a rule; removing that very rule is tried once, after the probe and before the one
      attempt to stop. */
  function Step(mode: IsolationMode, q: nat, s: Status, op: Op): Option<Status> {
    match op
    case Start(n) => if s.Off? && n == q then Some(Up) else None
    case StartFailed(n) => if s.Off? && n == q then Some(Off) else None
    case Install(rule) =>
      if s.Up? && mode.SourcePort? && rule.qnum == q then Some(Guarded(rule)) else None
    case InstallFailed(rule) =>
      if s.Up? && mode.SourcePort? && rule.qnum == q then Some(InstallRefused) else None
    case Connect(n) =>
      if n != q then None
      else if s.Guarded? then Some(Probed(s.rule))
      else if s.Up? && mode.Fwmark? then Some(Finishing)
      else None
    case Remove(rule) => Cleared(s, rule)
    case RemoveFailed(rule) => Cleared(s, rule)
    case Stop(n) => if n == q then Ended(s) else None
    case StopFailed(n) => if n == q then Ended(s) else None
  }

  function Cleared(s: Status, rule: Rule): Option<Status> {
    if s.Probed? && s.rule == rule then Some(Finishing) else None
  }

  function Ended(s: Status): Option<Status> {
    if s.Finishing? || s.InstallRefused? then Some(Off) else None
  }

  /** The status after a trace that follows the discipline from `Off`; None for any other trace. */
  function StatusAfter(mode: IsolationMode, q: nat, trace: seq<Op>): Option<Status> {
    if trace == [] then Some(Off)
    else
      var s := StatusAfter(mode, q, trace[..|trace| - 1]);
      if s.None? then None else Step(mode, q, s.value, trace[|trace| - 1])
  }

  lemma StatusAppend(mode: IsolationMode, q: nat, trace: seq<Op>, op: Op)
    ensures var s := StatusAfter(mode, q, trace);
            StatusAfter(mode, q, trace + [op]) == if s.None? then None else Step(mode, q, s.value, op)
  {
    assert (trace + [op])[..|trace|] == trace;
  }

  lemma {:induction false} PrefixFollows(mode: IsolationMode, q: nat, trace: seq<Op>, k: nat)
    requires k <= |trace| && StatusAfter(mode, q, trace).Some?
    ensures StatusAfter(mode, q, trace[..k]).Some?
  {
    if k < |trace| {
      PrefixFollows(mode, q, trace[..|trace| - 1], k);
      assert trace[..|trace| - 1][..k] == trace[..k];
    } else {
      assert trace[..k] == trace;
    }
  }

  function Is(op: Op): Op -> bool {
    (o: Op) => o == op
  }

  function Occurs(trace: seq<Op>, op: Op): nat {
    Count(trace, Is(op))
  }

  lemma OccursAppend(trace: seq<Op>, o: Op, op: Op)
    ensures Occurs(trace + [o], op) == Occurs(trace, op) + if o == op then 1 else 0
  {
    CountAppend(trace, o, Is(op));
  }

  /** Starts on `q` that no stop has been tried for yet. */
  function Open(trace: seq<Op>, q: nat): int {
    Occurs(trace, Start(q)) - Occurs(trace, Stop(q)) - Occurs(trace, StopFailed(q))
  }

  /** Instances of nfqws running on `q`: starts that no stop has ended. */
  function Alive(trace: seq<Op>, q: nat): int {
    Occurs(trace, Start(q)) - Occurs(trace, Stop(q))
  }

  /** Installations of a rule whose removal has not been tried yet. */
  function OpenRules(trace: seq<Op>, rule: Rule): int {
    Occurs(trace, Install(rule)) - Occurs(trace, Remove(rule)) - Occurs(trace, RemoveFailed(rule))
  }

  /** Installations of a rule that are still in place. */
  function RulesInPlace(trace: seq<Op>, rule: Rule): int {
    Occurs(trace, Install(rule)) - Occurs(trace, Remove(rule))
  }

  lemma OpenAppend(trace: seq<Op>, op: Op, q: nat)
    ensures Open(trace + [op], q)
         == Open(trace, q) + (if op == Start(q) then 1 else 0) - (if op == Stop(q) || op == StopFailed(q) then 1 else 0)
  {
    OccursAppend(trace, op, Start(q));
    OccursAppend(trace, op, Stop(q));
    OccursAppend(trace, op, StopFailed(q));
  }

  lemma OpenRulesAppend(trace: seq<Op>, op: Op, rule: Rule)
    ensures OpenRules(trace + [op], rule)
         == OpenRules(trace, rule) + (if op == Install(rule) then 1 else 0)
            - (if op == Remove(rule) || op == RemoveFailed(rule) then 1 else 0)
  {
    OccursAppend(trace, op, Install(rule));
    OccursAppend(trace, op, Remove(rule));
    OccursAppend(trace, op, RemoveFailed(rule));
  }

  function OpenAt(s: Status): int {
    if s.Off? then 0 else 1
  }

  function OpenRulesAt(s: Status, rule: Rule): int {
    if (s.Guarded? || s.Probed?) && s.rule == rule then 1 else 0
  }

  lemma StepOpens(mode: IsolationMode, q: nat, s: Status, op: Op)
    requires Step(mode, q, s, op).Some?
    ensures OpenAt(Step(mode, q, s, op).value)
         == OpenAt(s) + (if op == Start(q) then 1 else 0) - (if op == Stop(q) || op == StopFailed(q) then 1 else 0)
  {
  }

  lemma StepOpensRules(mode: IsolationMode, q: nat, s: Status, op: Op, rule: Rule)
    requires Step(mode, q, s, op).Some?
    ensures OpenRulesAt(Step(mode, q, s, op).value, rule)
         == OpenRulesAt(s, rule) + (if op == Install(rule) then 1 else 0)
            - (if op == Remove(rule) || op == RemoveFailed(rule) then 1 else 0)
  {
  }

  /** A disciplined worker has one open start between start and stop and none outside. The open
      rules are exactly the one its status names. */
  lemma {:induction false} StatusCounts(mode: IsolationMode, q: nat, trace: seq<Op>, rule: Rule)
    requires StatusAfter(mode, q, trace).Some?
    ensures var s := StatusAfter(mode, q, trace).value;
            Open(trace, q) == OpenAt(s) && OpenRules(trace, rule) == OpenRulesAt(s, rule)
  {
    if trace != [] {
      var init, op := trace[..|trace| - 1], trace[|trace| - 1];
      StatusCounts(mode, q, init, rule);
      StepOpens(mode, q, StatusAfter(mode, q, init).value, op);
      StepOpensRules(mode, q, StatusAfter(mode, q, init).value, op, rule);
      assert trace == init + [op];
      OpenAppend(init, op, q);
      OpenRulesAppend(init, op, rule);
    }
  }

  // ---------------------------------------------------------------- what failed stops leave

  /** A start on `q` after a stop on `q` has failed. */
  ghost predicate Reused(trace: seq<Op>, q: nat) {
    exists i, j | 0 <= i < j < |trace| :: trace[i] == StopFailed(q) && trace[j] == Start(q)
  }

  /** At no time more than one open start on `q`. */
  ghost predicate WellOpen(trace: seq<Op>, q: nat) {
    forall k | 0 <= k <= |trace| :: 0 <= Open(FirstOps(trace, k), q) <= 1
  }

  function FirstOps(trace: seq<Op>, k: int): seq<Op>
    requires 0 <= k <= |trace|
  {
    trace[..k]
  }

  lemma {:induction false} OccursSomewhere(trace: seq<Op>, op: Op)
    ensures Occurs(trace, op) > 0 <==> exists i | 0 <= i < |trace| :: trace[i] == op
  {
    if trace != [] {
      var init := trace[..|trace| - 1];
      OccursSomewhere(init, op);
      assert trace == init + [trace[|trace| - 1]];
      OccursAppend(init, trace[|trace| - 1], op);
      if Occurs(init, op) > 0 {
        var i :| 0 <= i < |init| && init[i] == op;
        assert trace[i] == op;
      }
    }
  }

  lemma ReusedEarlier(trace: seq<Op>, q: nat)
    requires trace != [] && !Reused(trace, q)
    ensures !Reused(trace[..|trace| - 1], q)
    ensures trace[|trace| - 1] == Start(q) ==> Occurs(trace[..|trace| - 1], StopFailed(q)) == 0
  {
    var init := trace[..|trace| - 1];
    assert forall i | 0 <= i < |init| :: init[i] == trace[i];
    OccursSomewhere(init, StopFailed(q));
  }

  lemma WellOpenEarlier(trace: seq<Op>, q: nat)
    requires trace != [] && WellOpen(trace, q)
    ensures WellOpen(trace[..|trace| - 1], q)
  {
    var init := trace[..|trace| - 1];
    forall k | 0 <= k <= |init| ensures FirstOps(init, k) == FirstOps(trace, k) {
      assert init[..k] == trace[..k];
    }
  }

  /** Without reuse the last start on `q` is the one whose stop failed. */
  lemma {:induction false} WithoutReuse(trace: seq<Op>, q: nat)
    requires WellOpen(trace, q) && !Reused(trace, q)
    ensures Occurs(trace, StopFailed(q)) + Open(trace, q) <= 1
  {
    if trace != [] {
      var init, op := trace[..|trace| - 1], trace[|trace| - 1];
      WellOpenEarlier(trace, q);
      ReusedEarlier(trace, q);
      WithoutReuse(init, q);
      assert trace == init + [op] && FirstOps(trace, |trace|) == trace && FirstOps(init, |init|) == init;
      OpenAppend(init, op, q);
      OccursAppend(init, op, StopFailed(q));
    }
  }

  lemma {:induction false} ReusedPrefix(trace: seq<Op>, q: nat, k: nat)
    requires k <= |trace| && !Reused(trace, q)
    ensures !Reused(FirstOps(trace, k), q)
  {
    assert forall i | 0 <= i < k :: FirstOps(trace, k)[i] == trace[i];
  }

  lemma WellOpenPrefix(trace: seq<Op>, q: nat, k: nat)
    requires k <= |trace| && WellOpen(trace, q)
    ensures WellOpen(FirstOps(trace, k), q)
  {
    forall j | 0 <= j <= k ensures FirstOps(FirstOps(trace, k), j) == FirstOps(trace, j) {
      assert trace[..k][..j] == trace[..j];
    }
  }

  /** The start that comes after a failed stop makes a second instance. */
  lemma ReuseDoubles(trace: seq<Op>, q: nat, i: nat, j: nat)
    requires WellOpen(trace, q) && i < j < |trace| && trace[i] == StopFailed(q) && trace[j] == Start(q)
    ensures Alive(FirstOps(trace, j + 1), q) >= 2
  {
    var before := FirstOps(trace, j);
    assert FirstOps(trace, j + 1) == before + [Start(q)];
    OpenAppend(before, Start(q), q);
    OccursAppend(before, Start(q), StopFailed(q));
    assert before[i] == StopFailed(q);
    OccursSomewhere(before, StopFailed(q));
  }

  /** One instance at a time, exactly: at most one runs on `q` at every moment if and only if no
      start on `q` follows a failed stop on `q`. */
  lemma AloneIff(trace: seq<Op>, q: nat)
    requires WellOpen(trace, q)
    ensures (forall k | 0 <= k <= |trace| :: Alive(FirstOps(trace, k), q) <= 1) <==> !Reused(trace, q)
  {
    if Reused(trace, q) {
      var i, j :| 0 <= i < j < |trace| && trace[i] == StopFailed(q) && trace[j] == Start(q);
      ReuseDoubles(trace, q, i, j);
    } else {
      forall k | 0 <= k <= |trace| ensures Alive(FirstOps(trace, k), q) <= 1 {
        WellOpenPrefix(trace, q, k);
        ReusedPrefix(trace, q, k);
        WithoutReuse(FirstOps(trace, k), q);
      }
    }
  }

  // ---------------------------------------------------------------- one task

  function StopOp(q: nat, e: Answers): Op {
    if e.stops then Stop(q) else StopFailed(q)
  }

  function RemoveOp(rule: Rule, e: Answers): Op {
    if e.removes then Remove(rule) else RemoveFailed(rule)
  }

  /** The operations of one task. */
  function TaskOps(mode: IsolationMode, a: Assignment, e: Answers): seq<Op> {
    if e.prepared.None? then []
    else if !e.starts then [StartFailed(a.qnum)]
    else
      var rule, stop := Rule(a.workerId, a.qnum, e.prepared.value), StopOp(a.qnum, e);
      if mode.Fwmark? then [Start(a.qnum), Connect(a.qnum), stop]
      else if !e.installs then [Start(a.qnum), InstallFailed(rule), stop]
      else [Start(a.qnum), Install(rule), Connect(a.qnum), RemoveOp(rule, e), stop]
  }

  /** Whatever the environment answers, a task starts, probes and cleans up in the prescribed order
      and ends with no attempt missing. */
  lemma TaskFollows(mode: IsolationMode, a: Assignment, e: Answers, before: seq<Op>)
    requires StatusAfter(mode, a.qnum, before) == Some(Off)
    ensures StatusAfter(mode, a.qnum, before + TaskOps(mode, a, e)) == Some(Off)
  {
    var q, stop := a.qnum, StopOp(a.qnum, e);
    if e.prepared.None? {
      assert before + [] == before;
    } else if !e.starts {
      StatusAppend(mode, q, before, StartFailed(q));
    } else {
      var rule := Rule(a.workerId, q, e.prepared.value);
      if mode.Fwmark? {
        ThreeSteps(mode, q, before, Start(q), Connect(q), stop, Off, Up, Finishing, Off);
      } else if !e.installs {
        ThreeSteps(mode, q, before, Start(q), InstallFailed(rule), stop, Off, Up, InstallRefused, Off);
      } else {
        ThreeSteps(mode, q, before, Start(q), Install(rule), Connect(q), Off, Up, Guarded(rule), Probed(rule));
        TwoSteps(mode, q, before + [Start(q), Install(rule), Connect(q)], RemoveOp(rule, e), stop,
                 Probed(rule), Finishing, Off);
        Regroup(before, [Start(q), Install(rule), Connect(q)], RemoveOp(rule, e), stop);
      }
    }
  }

  lemma OccursInOne(x: Op, op: Op)
    ensures Occurs([x], op) == if x == op then 1 else 0
  {
    OccursAppend([], x, op);
    assert [] + [x] == [x];
  }

  lemma OccursInThree(x: Op, y: Op, z: Op, op: Op)
    ensures Occurs([x, y, z], op)
         == (if x == op then 1 else 0) + (if y == op then 1 else 0) + (if z == op then 1 else 0)
  {
    OccursInOne(x, op);
    OccursAppend([x], y, op);
    OccursAppend([x, y], z, op);
    assert [x] + [y] == [x, y] && [x, y] + [z] == [x, y, z];
  }

  lemma OccursInFive(v: Op, w: Op, x: Op, y: Op, z: Op, op: Op)
    ensures Occurs([v, w, x, y, z], op)
         == Occurs([v, w, x], op) + (if y == op then 1 else 0) + (if z == op then 1 else 0)
  {
    OccursAppend([v, w, x], y, op);
    OccursAppend([v, w, x, y], z, op);
    assert [v, w, x] + [y] == [v, w, x, y] && [v, w, x, y] + [z] == [v, w, x, y, z];
  }

  lemma OccursInTask(mode: IsolationMode, a: Assignment, e: Answers, op: Op)
    ensures var ops := TaskOps(mode, a, e);
            && (|ops| == 1 ==> Occurs(ops, op) == if ops[0] == op then 1 else 0)
            && (|ops| == 3 ==>
                  Occurs(ops, op) == (if ops[0] == op then 1 else 0) + (if ops[1] == op then 1 else 0)
                                     + (if ops[2] == op then 1 else 0))
            && (|ops| == 5 ==>
                  Occurs(ops, op) == (if ops[0] == op then 1 else 0) + (if ops[1] == op then 1 else 0)
                                     + (if ops[2] == op then 1 else 0) + (if ops[3] == op then 1 else 0)
                                     + (if ops[4] == op then 1 else 0))
  {
    var ops := TaskOps(mode, a, e);
    if |ops| == 1 {
      assert ops == [ops[0]];
      OccursInOne(ops[0], op);
    } else if |ops| == 3 {
      assert ops == [ops[0], ops[1], ops[2]];
      OccursInThree(ops[0], ops[1], ops[2], op);
    } else if |ops| == 5 {
      assert ops == [ops[0], ops[1], ops[2], ops[3], ops[4]];
      OccursInFive(ops[0], ops[1], ops[2], ops[3], ops[4], op);
      OccursInThree(ops[0], ops[1], ops[2], op);
    }
  }

  function Once(happens: bool): nat { if happens then 1 else 0 }

  /** What a task performs, each at most once: it starts when a port was prepared, probes when its whole
      setup worked, and tries to undo whatever worked, however the probe ends. With `TaskFollows` this
      fixes the order too. */
  lemma TaskPerforms(mode: IsolationMode, a: Assignment, e: Answers)
    ensures var ops, q := TaskOps(mode, a, e), a.qnum;
            var started := e.prepared.Some? && e.starts;
            && Occurs(ops, Start(q)) == Once(started)
            && Occurs(ops, StartFailed(q)) == Once(e.prepared.Some? && !e.starts)
            && Occurs(ops, Connect(q)) == Once(started && (mode == SourcePort ==> e.installs))
            && Occurs(ops, Stop(q)) == Once(started && e.stops)
            && Occurs(ops, StopFailed(q)) == Once(started && !e.stops)
  {
    var q := a.qnum;
    OccursInTask(mode, a, e, Start(q));
    OccursInTask(mode, a, e, StartFailed(q));
    OccursInTask(mode, a, e, Connect(q));
    OccursInTask(mode, a, e, Stop(q));
    OccursInTask(mode, a, e, StopFailed(q));
  }

  /** The same for the rule, which leads packets from the prepared port to the worker's number. */
  lemma TaskGuards(mode: IsolationMode, a: Assignment, e: Answers)
    requires e.prepared.Some?
    ensures var ops, rule := TaskOps(mode, a, e), Rule(a.workerId, a.qnum, e.prepared.value);
            var installed := e.starts && mode == SourcePort && e.installs;
            && Occurs(ops, Install(rule)) == Once(installed)
            && Occurs(ops, InstallFailed(rule)) == Once(e.starts && mode == SourcePort && !e.installs)
            && Occurs(ops, Remove(rule)) == Once(installed && e.removes)
            && Occurs(ops, RemoveFailed(rule)) == Once(installed && !e.removes)
  {
    var rule := Rule(a.workerId, a.qnum, e.prepared.value);
    OccursInTask(mode, a, e, Install(rule));
    OccursInTask(mode, a, e, InstallFailed(rule));
    OccursInTask(mode, a, e, Remove(rule));
    OccursInTask(mode, a, e, RemoveFailed(rule));
  }

  lemma Regroup(before: seq<Op>, first: seq<Op>, x: Op, y: Op)
    requires |first| == 3
    ensures before + first + [x, y] == before + [first[0], first[1], first[2], x, y]
  {
  }

  lemma TwoSteps(
    mode: IsolationMode, q: nat, before: seq<Op>, x: Op, y: Op, s: Status, t: Status, u: Status)
    requires StatusAfter(mode, q, before) == Some(s)
    requires Step(mode, q, s, x) == Some(t) && Step(mode, q, t, y) == Some(u)
    ensures StatusAfter(mode, q, before + [x, y]) == Some(u)
  {
    StatusAppend(mode, q, before, x);
    StatusAppend(mode, q, before + [x], y);
    assert before + [x] + [y] == before + [x, y];
  }

  lemma ThreeSteps(
    mode: IsolationMode, q: nat, before: seq<Op>, x: Op, y: Op, z: Op, s: Status, t: Status, u: Status, v: Status)
    requires StatusAfter(mode, q, before) == Some(s)
    requires Step(mode, q, s, x) == Some(t) && Step(mode, q, t, y) == Some(u) && Step(mode, q, u, z) == Some(v)
    ensures StatusAfter(mode, q, before + [x, y, z]) == Some(v)
  {
    TwoSteps(mode, q, before, x, y, s, t, u);
    StatusAppend(mode, q, before + [x, y], z);
    assert before + [x, y] + [z] == before + [x, y, z];
  }

  function OpsOf(mode: IsolationMode, a: Assignment): Answers -> seq<Op> {
    (e: Answers) => TaskOps(mode, a, e)
  }

  /** All operations of one worker over its tasks. */
  function Program(mode: IsolationMode, a: Assignment, tasks: seq<Answers>): seq<Op> {
    FlatMap(OpsOf(mode, a), tasks)
  }

  lemma {:induction false} ProgramFollows(mode: IsolationMode, a: Assignment, tasks: seq<Answers>)
    ensures StatusAfter(mode, a.qnum, Program(mode, a, tasks)) == Some(Off)
  {
    if tasks != [] {
      ProgramFollows(mode, a, tasks[..|tasks| - 1]);
      TaskFollows(mode, a, tasks[|tasks| - 1], Program(mode, a, tasks[..|tasks| - 1]));
    }
  }

  /** Over all tasks of a worker each started nfqws gets one stop attempt and each installed rule
      one attempt to remove it. What is left running and in place is what these attempts failed on. */
  lemma OnlyFailuresAreLeft(mode: IsolationMode, a: Assignment, tasks: seq<Answers>, rule: Rule)
    ensures var ops := Program(mode, a, tasks);
            && Open(ops, a.qnum) == 0 && Alive(ops, a.qnum) == Occurs(ops, StopFailed(a.qnum))
            && OpenRules(ops, rule) == 0 && RulesInPlace(ops, rule) == Occurs(ops, RemoveFailed(rule))
  {
    ProgramFollows(mode, a, tasks);
    StatusCounts(mode, a.qnum, Program(mode, a, tasks), rule);
  }

  // ---------------------------------------------------------------- the runtime in place

  /** What a task reports: the first thing that went wrong decides. A failing remove or stop is
      recorded only in an empty error class and never changes the outcome. */
  function TaskOutcome(mode: IsolationMode, a: Assignment, e: Answers): TaskReport {
    if e.prepared.None? then FailedSetup(a.qnum, None, BindFailed)
    else if !e.starts then FailedSetup(a.qnum, e.prepared, NfqwsStartFailed)
    else if mode.SourcePort? && !e.installs then FailedSetup(a.qnum, e.prepared, FirewallInstallFailed)
    else
      var r := if e.probed.Some? then e.probed.value else TotalTimeout(a.qnum, e.prepared.value);
      var error :=
        if r.result.errorClass.Some? then r.result.errorClass
        else if mode.SourcePort? && !e.removes then Some(FirewallRemoveFailed)
        else if !e.stops then Some(NfqwsStopFailed)
        else None;
      TaskReport(r.result.(errorClass := error), Some(a.qnum),
                 if r.sourcePort.Some? && r.sourcePort.value != 0 then r.sourcePort else e.prepared)
  }

  function Successful(r: TaskReport): bool {
    r.result.outcome.Success?
  }

  /** A task succeeds exactly when everything up to the probe worked and the probe succeeded;
      cleanup never turns a verdict around. */
  lemma SuccessIff(mode: IsolationMode, a: Assignment, e: Answers)
    ensures Successful(TaskOutcome(mode, a, e)) <==>
            && e.prepared.Some? && e.starts && (mode.SourcePort? ==> e.installs)
            && e.probed.Some? && Successful(e.probed.value)
  {
  }

  /** What a task reports. A failed setup is an infrastructure failure, of the class of the stage that
      failed first. Otherwise outcome and kind are the probe's, or those of a timeout, and the error
      class is the first that anything gave: the probe, the removal, the stop. */
  lemma ReportMeans(mode: IsolationMode, a: Assignment, e: Answers)
    ensures var r := TaskOutcome(mode, a, e);
            var failed := if e.prepared.None? then Some(BindFailed)
                          else if !e.starts then Some(NfqwsStartFailed)
                          else if mode == SourcePort && !e.installs then Some(FirewallInstallFailed) else None;
            var cleanup := if mode == SourcePort && !e.removes then Some(FirewallRemoveFailed)
                           else if !e.stops then Some(NfqwsStopFailed) else None;
            && r.qnum == Some(a.qnum)
            && (failed.Some? ==>
                  && r.result.outcome == ProbeOutcome.InternalError
                  && r.result.failureKind == Some(FailureKind.InfrastructureFailure)
                  && r.result.errorClass == failed && r.sourcePort == e.prepared)
            && (failed.None? && e.probed.None? ==>
                  && r.result.outcome == Timeout && r.result.failureKind == Some(FailureKind.StrategyFailure)
                  && r.result.errorClass == Some(ReadTimeout) && r.sourcePort == e.prepared)
            && (failed.None? && e.probed.Some? ==>
                  var p := e.probed.value;
                  && r.result.outcome == p.result.outcome && r.result.failureKind == p.result.failureKind
                  && r.result.errorClass == (if p.result.errorClass.Some? then p.result.errorClass else cleanup)
                  && r.sourcePort == if p.sourcePort.Some? && p.sourcePort != Some(0) then p.sourcePort else e.prepared)
  {
  }

  /** The outcome of a strategy over all its targets. */
  ghost predicate Summarises(r: TaskReport, attempts: seq<TaskReport>) {
    exists i | 0 <= i < |attempts| ::
      && r == attempts[i]
      && (forall j | 0 <= j < i :: Successful(attempts[j]))
      && (Successful(r) ==> i == |attempts| - 1)
  }

  /** One strategy result stands for its attempts: it succeeds exactly when all of them do. */
  lemma SummaryIsConjunction(r: TaskReport, attempts: seq<TaskReport>)
    requires Summarises(r, attempts)
    ensures r in attempts
    ensures Successful(r) <==> forall i | 0 <= i < |attempts| :: Successful(attempts[i])
  {
  }

  lemma SummaryIsUnique(r: TaskReport, r': TaskReport, attempts: seq<TaskReport>)
    requires Summarises(r, attempts) && Summarises(r', attempts)
    ensures r == r'
  {
  }

  /** The first failure, or else the last attempt. */
  function Summary(attempts: seq<TaskReport>): (r: TaskReport)
    requires attempts != []
    ensures Summarises(r, attempts)
  {
    if !Successful(attempts[0]) || |attempts| == 1 then
      SummaryAt(attempts[0], attempts, 0);
      attempts[0]
    else
      var r := Summary(attempts[1..]);
      SummaryShifts(r, attempts);
      r
  }

  lemma SummaryAt(r: TaskReport, attempts: seq<TaskReport>, i: nat)
    requires i < |attempts| && r == attempts[i] && (Successful(r) ==> i == |attempts| - 1)
    requires forall j | 0 <= j < i :: Successful(attempts[j])
    ensures Summarises(r, attempts)
  {
  }

  lemma SummaryShifts(r: TaskReport, attempts: seq<TaskReport>)
    requires attempts != [] && Successful(attempts[0]) && Summarises(r, attempts[1..])
    ensures Summarises(r, attempts)
  {
    var rest := attempts[1..];
    var i :| 0 <= i < |rest| && r == rest[i] && (forall j | 0 <= j < i :: Successful(rest[j]))
             && (Successful(r) ==> i == |rest| - 1);
    forall j | 0 <= j < i + 1 ensures Successful(attempts[j]) {
      assert j > 0 ==> attempts[j] == rest[j - 1];
    }
    SummaryAt(r, attempts, i + 1);
  }

  /** Reports with the same results have summaries with the same result. */
  lemma {:induction false} SummaryOfResults(xs: seq<TaskReport>, ys: seq<TaskReport>)
    requires |xs| == |ys| > 0 && forall i | 0 <= i < |xs| :: xs[i].result == ys[i].result
    ensures Summary(xs).result == Summary(ys).result
  {
    if Successful(xs[0]) && |xs| > 1 {
      SummaryOfResults(xs[1..], ys[1..]);
    }
  }

  /** What the loop of `run_strategy_tests` remembers of the attempts so far. */
  ghost predicate Tracks(firstFailure: Option<TaskReport>, lastResult: Option<TaskReport>, attempts: seq<TaskReport>) {
    && (attempts != [] ==> lastResult == Some(attempts[|attempts| - 1]))
    && match firstFailure
       case None => forall i | 0 <= i < |attempts| :: Successful(attempts[i])
       case Some(r) => !Successful(r) && Summarises(r, attempts)
  }

  lemma TracksStep(firstFailure: Option<TaskReport>, lastResult: Option<TaskReport>, attempts: seq<TaskReport>, r: TaskReport)
    requires Tracks(firstFailure, lastResult, attempts)
    ensures Tracks(if firstFailure.None? && !Successful(r) then Some(r) else firstFailure, Some(r), attempts + [r])
  {
    var longer := attempts + [r];
    assert longer[|attempts|] == r && forall i | 0 <= i < |attempts| :: longer[i] == attempts[i];
    if firstFailure.Some? {
      var i :| 0 <= i < |attempts| && firstFailure.value == attempts[i] && forall j | 0 <= j < i :: Successful(attempts[j]);
      assert firstFailure.value == longer[i];
    }
  }

  lemma TracksGives(firstFailure: Option<TaskReport>, lastResult: Option<TaskReport>, attempts: seq<TaskReport>)
    requires Tracks(firstFailure, lastResult, attempts) && attempts != []
    ensures Summarises(if firstFailure.Some? then firstFailure.value else lastResult.value, attempts)
  {
    if firstFailure.None? {
      assert lastResult.value == attempts[|attempts| - 1];
    }
  }

  function Reports(mode: IsolationMode, a: Assignment, targets: seq<Answers>): (r: seq<TaskReport>)
    ensures |r| == |targets|
  {
    seq(|targets|, (i: int) requires 0 <= i < |targets| => TaskOutcome(mode, a, targets[i]))
  }

  /** Which worker runs the targets does not matter for the result. */
  lemma ResultIgnoresWorker(mode: IsolationMode, a: Assignment, b: Assignment, targets: seq<Answers>)
    requires targets != []
    ensures Summary(Reports(mode, a, targets)).result == Summary(Reports(mode, b, targets)).result
  {
    SummaryOfResults(Reports(mode, a, targets), Reports(mode, b, targets));
  }

  lemma ReportsAppend(mode: IsolationMode, a: Assignment, targets: seq<Answers>, i: nat)
    requires i < |targets|
    ensures Reports(mode, a, targets[..i + 1]) == Reports(mode, a, targets[..i]) + [TaskOutcome(mode, a, targets[i])]
    ensures Program(mode, a, targets[..i + 1]) == Program(mode, a, targets[..i]) + TaskOps(mode, a, targets[i])
  {
    assert targets[..i + 1][..i] == targets[..i];
  }

  class WorkerRuntime {
    const mode: IsolationMode
    var log: seq<Op>

    constructor (mode: IsolationMode)
      ensures this.mode == mode && log == []
    {
      this.mode := mode;
      log := [];
    }

    method Perform(op: Op)
      modifies this
      ensures log == old(log) + [op]
    {
      log := log + [op];
    }

    /** `run_worker_task`. */
    method RunWorkerTask(a: Assignment, e: Answers) returns (report: TaskReport)
      modifies this
      ensures log == old(log) + TaskOps(mode, a, e)
      ensures report == TaskOutcome(mode, a, e)
    {
      if e.prepared.None? {
        return FailedSetup(a.qnum, None, BindFailed);
      }
      var sourcePort := e.prepared.value;
      if !e.starts {
        Perform(StartFailed(a.qnum));
        return FailedSetup(a.qnum, Some(sourcePort), NfqwsStartFailed);
      }
      Perform(Start(a.qnum));
      var perTaskRule := mode == SourcePort;
      var rule := Rule(a.workerId, a.qnum, sourcePort);
      if perTaskRule {
        if !e.installs {
          Perform(InstallFailed(rule));
          Perform(StopOp(a.qnum, e));
          return FailedSetup(a.qnum, Some(sourcePort), FirewallInstallFailed);
        }
        Perform(Install(rule));
      }
      Perform(Connect(a.qnum));
      var probed := if e.probed.Some? then e.probed.value else TotalTimeout(a.qnum, sourcePort);
      var result := probed.result;
      if probed.sourcePort.Some? && probed.sourcePort.value != 0 {
        sourcePort := probed.sourcePort.value;
      }
      if perTaskRule {
        Perform(RemoveOp(rule, e));
        if !e.removes && result.errorClass.None? {
          result := result.(errorClass := Some(FirewallRemoveFailed));
        }
      }
      Perform(StopOp(a.qnum, e));
      if !e.stops && result.errorClass.None? {
        result := result.(errorClass := Some(NfqwsStopFailed));
      }
      report := TaskReport(result, Some(a.qnum), Some(sourcePort));
    }

    /** `run_strategy_tests`: every target is probed, whatever the earlier ones gave. */
    method RunStrategyTests(a: Assignment, targets: seq<Answers>)
      returns (report: TaskReport, attempts: seq<TaskReport>)
      requires targets != []
      modifies this
      ensures log == old(log) + Program(mode, a, targets)
      ensures attempts == Reports(mode, a, targets) && report == Summary(attempts)
    {
      attempts := [];
      var lastResult: Option<TaskReport> := None;
      var firstFailure: Option<TaskReport> := None;
      for i := 0 to |targets|
        invariant log == old(log) + Program(mode, a, targets[..i])
        invariant attempts == Reports(mode, a, targets[..i])
        invariant Tracks(firstFailure, lastResult, attempts)
      {
        ghost var ops := Program(mode, a, targets[..i]);
        var result := RunWorkerTask(a, targets[i]);
        assert log == old(log) + (ops + TaskOps(mode, a, targets[i]));
        ReportsAppend(mode, a, targets, i);
        TracksStep(firstFailure, lastResult, attempts, result);
        lastResult := Some(result);
        attempts := attempts + [result];
        if !Successful(result) && firstFailure.None? {
          firstFailure := Some(result);
        }
      }
      assert targets[..|targets|] == targets;
      TracksGives(firstFailure, lastResult, attempts);
      report := if firstFailure.Some? then firstFailure.value else lastResult.value;
      SummaryIsUnique(report, Summary(attempts), attempts);
    }
  }
}
