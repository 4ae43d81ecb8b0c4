/** What trouble around a probe teaches: failures of the setup and of the cleanup in src/worker.rs
    never reach the posteriors of src/bayes.rs; only the probe itself does. */
module Learning {
  import opened Types
  import opened Isolation
  import opened WorkerTask
  import Bayes

  function Learned(m: map<string, Bayes.Posterior>, key: string, prior: (real, real), report: TaskReport)
    : map<string, Bayes.Posterior>
  {
    Bayes.Updated(m, Bayes.Record(key, prior, report.result))
  }

  predicate SetUp(mode: IsolationMode, e: Answers) {
    e.prepared.Some? && e.starts && (mode.SourcePort? ==> e.installs)
  }

  /** What the probe says, the total timeout included. */
  function ProbeReport(a: Assignment, e: Answers): TaskReport
    requires e.prepared.Some?
  {
    if e.probed.Some? then e.probed.value else TotalTimeout(a.qnum, e.prepared.value)
  }

  /** A task whose setup fails leaves every posterior as it is. After a setup that worked the
      posteriors learn exactly what the probe says, however cleanup ends. */
  lemma OnlyProbesTeach(
    mode: IsolationMode, a: Assignment, e: Answers, m: map<string, Bayes.Posterior>, key: string, prior: (real, real))
    ensures Learned(m, key, prior, TaskOutcome(mode, a, e))
         == if SetUp(mode, e) then Learned(m, key, prior, ProbeReport(a, e)) else m
  {
    if SetUp(mode, e) {
      assert Bayes.Gain(TaskOutcome(mode, a, e).result) == Bayes.Gain(ProbeReport(a, e).result);
    }
  }

  /** A record changes nothing exactly when it is an infrastructure failure, or a cancelled result of
      a strategy that has its posterior already. */
  lemma UnchangedIff(m: map<string, Bayes.Posterior>, rec: Bayes.Record)
    ensures Bayes.Updated(m, rec) == m
            <==> Bayes.Infrastructure(rec.result) || (rec.key in m && rec.result.outcome == ProbeOutcome.Cancelled)
  {
    var t := Bayes.Updated(m, rec);
    if !Bayes.Infrastructure(rec.result) {
      assert rec.key in t;
      if rec.key in m {
        assert t[rec.key] == Bayes.Add(m[rec.key], Bayes.Gain(rec.result));
        assert t == m[rec.key := t[rec.key]];
        if rec.result.outcome == ProbeOutcome.Cancelled {
          assert t[rec.key] == m[rec.key];
        } else {
          assert t[rec.key].tests == m[rec.key].tests + 1;
        }
      }
    }
  }

  /** The target that decides a strategy's summary: the first that does not succeed, or the last. */
  ghost predicate Decides(mode: IsolationMode, a: Assignment, targets: seq<Answers>, i: nat) {
    && i < |targets|
    && (forall j | 0 <= j < i :: Successful(TaskOutcome(mode, a, targets[j])))
    && (Successful(TaskOutcome(mode, a, targets[i])) ==> i == |targets| - 1)
  }

  lemma SummaryIsDeciding(mode: IsolationMode, a: Assignment, targets: seq<Answers>, i: nat)
    requires Decides(mode, a, targets, i)
    ensures Summary(Reports(mode, a, targets)) == TaskOutcome(mode, a, targets[i])
  {
    var reports := Reports(mode, a, targets);
    assert forall j | 0 <= j < |targets| :: reports[j] == TaskOutcome(mode, a, targets[j]);
    SummaryAt(reports[i], reports, i);
    SummaryIsUnique(reports[i], Summary(reports), reports);
  }

  /** When a whole strategy teaches nothing, whatever its other targets answer: exactly when the
      deciding target failed in setup, or its probe reported an infrastructure failure, or was
      cancelled while the strategy has its posterior already. */
  lemma StrategyTeachesNothingIff(
    mode: IsolationMode, a: Assignment, targets: seq<Answers>, i: nat,
    m: map<string, Bayes.Posterior>, key: string, prior: (real, real))
    requires Decides(mode, a, targets, i)
    ensures Learned(m, key, prior, Summary(Reports(mode, a, targets))) == m <==>
            || !SetUp(mode, targets[i])
            || Bayes.Infrastructure(ProbeReport(a, targets[i]).result)
            || (key in m && ProbeReport(a, targets[i]).result.outcome == ProbeOutcome.Cancelled)
  {
    SummaryIsDeciding(mode, a, targets, i);
    OnlyProbesTeach(mode, a, targets[i], m, key, prior);
    if SetUp(mode, targets[i]) {
      UnchangedIff(m, Bayes.Record(key, prior, ProbeReport(a, targets[i]).result));
    }
  }
}
