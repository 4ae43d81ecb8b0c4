/** Strategy posteriors (src/bayes.rs) and their closed form over any list of results. */
module Bayes {
  import opened Types
  import opened Counting

  datatype Posterior = Posterior(alpha: real, beta: real, tests: nat)

  /** One call of `update`: a strategy key, its prior, the result. */
  datatype Record = Record(key: string, prior: (real, real), result: ProbeResult)

  predicate Infrastructure(r: ProbeResult) {
    r.failureKind == Some(InfrastructureFailure)
  }

  class BayesianState {
    var posteriors: map<string, Posterior>

    constructor (posteriors: map<string, Posterior>)
      ensures this.posteriors == posteriors
    {
      this.posteriors := posteriors;
    }

    method GetOrInsert(key: string, prior: (real, real)) returns (p: Posterior)
      modifies this
      ensures key in posteriors && p == posteriors[key]
      ensures posteriors == if key in old(posteriors) then old(posteriors)
                            else old(posteriors)[key := Posterior(prior.0, prior.1, 0)]
    {
      if key !in posteriors {
        posteriors := posteriors[key := Posterior(prior.0, prior.1, 0)];
      }
      p := posteriors[key];
    }

    method Update(key: string, prior: (real, real), result: ProbeResult)
      modifies this
      ensures posteriors == Updated(old(posteriors), Record(key, prior, result))
    {
      if Infrastructure(result) {
        return;
      }
      var p := GetOrInsert(key, prior);
      match result.outcome {
        case Success => p := p.(alpha := p.alpha + 1.0);
        case Cancelled => return;
        case Timeout => p := p.(beta := p.beta + 0.7);
        case _ => p := p.(beta := p.beta + 1.0);
      }
      posteriors := posteriors[key := p.(tests := p.tests + 1)];
    }
  }

  // The effect of updates as a function of the map

  function Gain(r: ProbeResult): Posterior {
    match r.outcome
    case Success => Posterior(1.0, 0.0, 1)
    case Cancelled => Posterior(0.0, 0.0, 0)
    case Timeout => Posterior(0.0, 0.7, 1)
    case _ => Posterior(0.0, 1.0, 1)
  }

  function Add(p: Posterior, q: Posterior): Posterior {
    Posterior(p.alpha + q.alpha, p.beta + q.beta, p.tests + q.tests)
  }

  function Updated(m: map<string, Posterior>, rec: Record): map<string, Posterior> {
    if Infrastructure(rec.result) then m
    else
      var p := if rec.key in m then m[rec.key] else Posterior(rec.prior.0, rec.prior.1, 0);
      m[rec.key := Add(p, Gain(rec.result))]
  }

  function Fold(m: map<string, Posterior>, recs: seq<Record>): map<string, Posterior> {
    if recs == [] then m else Updated(Fold(m, recs[..|recs| - 1]), recs[|recs| - 1])
  }

  // Counting

  /** A record that concerns `key` and is not an infrastructure failure. */
  predicate Relevant(rec: Record, key: string) {
    rec.key == key && !Infrastructure(rec.result)
  }

  function Succeeded(key: string): Record -> bool {
    (rec: Record) => Relevant(rec, key) && rec.result.outcome.Success?
  }

  function TimedOut(key: string): Record -> bool {
    (rec: Record) => Relevant(rec, key) && rec.result.outcome.Timeout?
  }

  function OtherFailure(key: string): Record -> bool {
    (rec: Record) => Relevant(rec, key)
      && !rec.result.outcome.Success? && !rec.result.outcome.Timeout? && rec.result.outcome != ProbeOutcome.Cancelled
  }

  /** What a key starts from: its entry, or else the prior of the first relevant record. */
  function Start(m: map<string, Posterior>, recs: seq<Record>, key: string): Option<Posterior> {
    if recs == [] then if key in m then Some(m[key]) else None
    else
      var start := Start(m, recs[..|recs| - 1], key);
      var last := recs[|recs| - 1];
      if start.None? && Relevant(last, key) then Some(Posterior(last.prior.0, last.prior.1, 0)) else start
  }

  /** The counted results of a key: successes raise alpha by 1, timeouts beta by 0.7, other counted
      failures beta by 1; cancelled results and infrastructure failures count for nothing. */
  function Evidence(recs: seq<Record>, key: string): Posterior {
    var s, t, f := Count(recs, Succeeded(key)), Count(recs, TimedOut(key)), Count(recs, OtherFailure(key));
    Posterior(s as real, 0.7 * t as real + f as real, s + t + f)
  }

  lemma EvidenceStep(recs: seq<Record>, key: string)
    requires recs != []
    ensures Evidence(recs, key)
         == if Relevant(recs[|recs| - 1], key)
            then Add(Evidence(recs[..|recs| - 1], key), Gain(recs[|recs| - 1].result))
            else Evidence(recs[..|recs| - 1], key)
  {
  }

  /** What one record does to one key. */
  lemma UpdatedAt(m: map<string, Posterior>, rec: Record, key: string)
    ensures key in Updated(m, rec) <==> key in m || Relevant(rec, key)
    ensures key in m && !Relevant(rec, key) ==> Updated(m, rec)[key] == m[key]
    ensures var old' := if key in m then m[key] else Posterior(rec.prior.0, rec.prior.1, 0);
            Relevant(rec, key) ==> Updated(m, rec)[key] == Add(old', Gain(rec.result))
  {
  }

  /** Closed form of folding any results, in any order, into any posteriors. */
  lemma {:induction false} FoldClosedForm(m: map<string, Posterior>, recs: seq<Record>, key: string)
    ensures key in Fold(m, recs) <==> Start(m, recs, key).Some?
    ensures key in Fold(m, recs) ==> Fold(m, recs)[key] == Add(Start(m, recs, key).value, Evidence(recs, key))
  {
    if recs != [] {
      FoldClosedForm(m, recs[..|recs| - 1], key);
      EvidenceStep(recs, key);
      UpdatedAt(Fold(m, recs[..|recs| - 1]), recs[|recs| - 1], key);
      if Start(m, recs[..|recs| - 1], key).None? {
        NoStartNoEvidence(m, recs[..|recs| - 1], key);
      }
    }
  }

  lemma {:induction false} NoStartNoEvidence(m: map<string, Posterior>, recs: seq<Record>, key: string)
    requires Start(m, recs, key).None?
    ensures Evidence(recs, key) == Posterior(0.0, 0.0, 0)
  {
    if recs != [] {
      NoStartNoEvidence(m, recs[..|recs| - 1], key);
    }
  }

  // Order independence

  /** Two records of one strategy that give a missing key the same prior. Infrastructure failures
      and keys that have a posterior already never read theirs. */
  predicate SamePrior(m: map<string, Posterior>, a: Record, b: Record) {
    a.key == b.key && a.key !in m && !Infrastructure(a.result) && !Infrastructure(b.result) ==> a.prior == b.prior
  }

  ghost predicate ConsistentPriors(m: map<string, Posterior>, recs: seq<Record>) {
    forall a, b | a in recs && b in recs :: SamePrior(m, a, b)
  }

  predicate StartsFrom(rec: Record, key: string, start: Option<Posterior>) {
    Relevant(rec, key) && start == Some(Posterior(rec.prior.0, rec.prior.1, 0))
  }

  lemma {:induction false} StartIsPrior(m: map<string, Posterior>, recs: seq<Record>, key: string)
    ensures key in m ==> Start(m, recs, key) == Some(m[key])
    ensures key !in m && Start(m, recs, key).Some? ==>
              exists rec :: rec in recs && StartsFrom(rec, key, Start(m, recs, key))
    ensures Start(m, recs, key).None? ==> forall rec | rec in recs :: !Relevant(rec, key)
  {
    if recs != [] {
      var init := recs[..|recs| - 1];
      assert recs == init + [recs[|recs| - 1]];
      StartIsPrior(m, init, key);
      if key !in m && Start(m, recs, key).Some? {
        if Start(m, init, key).Some? {
          var rec :| rec in init && StartsFrom(rec, key, Start(m, init, key));
          assert rec in recs;
        } else {
          assert StartsFrom(recs[|recs| - 1], key, Start(m, recs, key));
        }
      }
    }
  }

  lemma SameStart(m: map<string, Posterior>, xs: seq<Record>, ys: seq<Record>, key: string)
    requires multiset(xs) == multiset(ys) && ConsistentPriors(m, xs)
    ensures Start(m, xs, key) == Start(m, ys, key)
  {
    StartIsPrior(m, xs, key);
    StartIsPrior(m, ys, key);
    SameElements(xs, ys);
    if key !in m && (Start(m, xs, key).Some? || Start(m, ys, key).Some?) {
      assert Start(m, xs, key).Some? && Start(m, ys, key).Some?;
      var a :| a in xs && StartsFrom(a, key, Start(m, xs, key));
      var b :| b in ys && StartsFrom(b, key, Start(m, ys, key));
      assert b in xs && SamePrior(m, a, b);
    }
  }

  lemma SameEvidence(xs: seq<Record>, ys: seq<Record>, key: string)
    requires multiset(xs) == multiset(ys)
    ensures Evidence(xs, key) == Evidence(ys, key)
  {
    CountPermutation(xs, ys, Succeeded(key));
    CountPermutation(xs, ys, TimedOut(key));
    CountPermutation(xs, ys, OtherFailure(key));
  }

  /** With consistent priors two orders of the same results give the same posteriors. */
  lemma FoldOrderIndependent(m: map<string, Posterior>, xs: seq<Record>, ys: seq<Record>)
    requires multiset(xs) == multiset(ys) && ConsistentPriors(m, xs)
    ensures Fold(m, xs) == Fold(m, ys)
  {
    forall key: string
      ensures key in Fold(m, xs) <==> key in Fold(m, ys)
      ensures key in Fold(m, xs) ==> Fold(m, xs)[key] == Fold(m, ys)[key]
    {
      FoldClosedForm(m, xs, key);
      FoldClosedForm(m, ys, key);
      SameStart(m, xs, ys, key);
      SameEvidence(xs, ys, key);
    }
  }

  /** The order in which results are folded in does not matter. */
  ghost predicate OrderIrrelevant(m: map<string, Posterior>, recs: seq<Record>) {
    forall xs: seq<Record> | multiset(xs) == multiset(recs) :: Fold(m, xs) == Fold(m, recs)
  }

  function MovedToFront(recs: seq<Record>, i: nat): seq<Record>
    requires i < |recs|
  {
    [recs[i]] + (recs[..i] + recs[i + 1..])
  }

  lemma MovingPermutes(recs: seq<Record>, i: nat)
    requires i < |recs|
    ensures multiset(MovedToFront(recs, i)) == multiset(recs)
  {
    assert recs == recs[..i] + [recs[i]] + recs[i + 1..];
  }

  /** A missing key starts from the prior of a relevant record that comes first. */
  lemma {:induction false} FirstRecordStarts(m: map<string, Posterior>, recs: seq<Record>, key: string)
    requires key !in m && recs != [] && Relevant(recs[0], key)
    ensures Start(m, recs, key) == Some(Posterior(recs[0].prior.0, recs[0].prior.1, 0))
  {
    if |recs| > 1 {
      FirstRecordStarts(m, recs[..|recs| - 1], key);
    } else {
      assert recs[..|recs| - 1] == [];
    }
  }

  lemma FrontDecides(m: map<string, Posterior>, recs: seq<Record>, i: nat)
    requires i < |recs| && recs[i].key !in m && !Infrastructure(recs[i].result)
    ensures var key := recs[i].key; var folded := Fold(m, MovedToFront(recs, i));
            && key in folded
            && folded[key] == Add(Posterior(recs[i].prior.0, recs[i].prior.1, 0), Evidence(recs, key))
  {
    var key, xs := recs[i].key, MovedToFront(recs, i);
    assert xs[0] == recs[i];
    MovingPermutes(recs, i);
    FirstRecordStarts(m, xs, key);
    FoldClosedForm(m, xs, key);
    SameEvidence(xs, recs, key);
  }

  /** Order independence, exactly: every order of the results gives the same posteriors if and only
      if any two records that could give a missing key its prior agree on it. */
  lemma OrderIrrelevantIff(m: map<string, Posterior>, recs: seq<Record>)
    ensures OrderIrrelevant(m, recs) <==> ConsistentPriors(m, recs)
  {
    if ConsistentPriors(m, recs) {
      forall xs: seq<Record> | multiset(xs) == multiset(recs) {
        FoldOrderIndependent(m, recs, xs);
      }
    } else {
      var a, b :| a in recs && b in recs && !SamePrior(m, a, b);
      var i: nat :| i < |recs| && recs[i] == a;
      var j: nat :| j < |recs| && recs[j] == b;
      FrontsDiffer(m, recs, i, j);
      MovingPermutes(recs, i);
      MovingPermutes(recs, j);
    }
  }

  lemma FrontsDiffer(m: map<string, Posterior>, recs: seq<Record>, i: nat, j: nat)
    requires i < |recs| && j < |recs| && !SamePrior(m, recs[i], recs[j])
    ensures Fold(m, MovedToFront(recs, i)) != Fold(m, MovedToFront(recs, j))
  {
    FrontDecides(m, recs, i);
    FrontDecides(m, recs, j);
  }
}
