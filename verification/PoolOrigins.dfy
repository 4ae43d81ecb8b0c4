/** Where the results of a run come from: each one is what the backend answered to the worker it
    names, for the task it names. Nothing here assumes that answers depend on the task alone. */
module PoolOrigins {
  import opened Types
  import opened PoolProtocol
  import opened PoolSafety
  import opened PoolResults

  /** A worker has the item to send, or it is on its way to `run`, or recorded. */
  predicate Has(s: State, item: Item) {
    || item in s.resultChan || item in s.results || item in Pending(s.collector)
    || exists w | 0 <= w < |s.workers| :: s.workers[w] == Sending(item)
  }

  /** The action is the backend's answer that makes the item. */
  predicate Makes(s: State, a: Action, item: Item) {
    && a == Work(item.worker, item.result)
    && item.worker < |s.workers| && s.workers[item.worker] == Running(item.pos)
  }

  lemma MadeByWorker(c: Config, s: State, w: nat, result: ProbeResult, item: Item)
    requires Enabled(c, s, Work(w, result)) && Has(Worked(c, s, w, result), item)
    ensures Has(s, item) || Makes(s, Work(w, result), item)
  {
    var t := Worked(c, s, w, result);
    assert t.results == s.results && t.collector == s.collector;
    if v :| 0 <= v < |t.workers| && t.workers[v] == Sending(item) {
      assert v != w ==> s.workers[v] == Sending(item);
    } else if item in t.resultChan && item !in s.resultChan {
      assert s.workers[w] == Sending(item);
    }
  }

  lemma MadeByCollector(c: Config, s: State, quit: bool, item: Item)
    requires Enabled(c, s, Collect(quit)) && Has(Collected(c, s, quit), item)
    ensures Has(s, item)
  {
    var t := Collected(c, s, quit);
    assert t.workers == s.workers;
    match s.collector
    case Listen(draining) =>
      if !quit && s.resultChan != [] {
        assert s.resultChan[0] in s.resultChan && forall x | x in s.resultChan[1..] :: x in s.resultChan;
        MadeByReceive(c, s.(resultChan := s.resultChan[1..]), draining, s.resultChan[0], item);
      }
    case _ =>
  }

  lemma MadeByReceive(c: Config, s: State, draining: bool, received: Item, item: Item)
    requires s.collector.Listen?
    ensures var t := Received(c, s, draining, received);
            && (item in t.results || item in Pending(t.collector) ==> item in s.results || item == received)
            && t.resultChan == s.resultChan
  {
  }

  lemma MadeStep(c: Config, s: State, a: Action, item: Item)
    requires Enabled(c, s, a) && Has(Next(c, s, a), item)
    ensures Has(s, item) || Makes(s, a, item)
  {
    match a
    case Work(w, result) => MadeByWorker(c, s, w, result, item);
    case Collect(quit) => MadeByCollector(c, s, quit, item);
    case Produce(giveUp) =>
      var t := Produced(c, s, giveUp);
      assert t.workers == s.workers && t.results == s.results && t.resultChan == s.resultChan && t.collector == s.collector;
    case Cancel =>
  }

  /** At moment `i` of the run the worker that `item` names was in its backend call for the task that
      `item` names, and got the answer that `item` holds. */
  predicate MadeAt(c: Config, schedule: seq<Action>, item: Item, i: nat)
    requires Runs(c, schedule)
  {
    i < |schedule| && Runs(c, schedule[..i]) && Makes(After(c, schedule[..i]), schedule[i], item)
  }

  /** Every result of every run, cancelled or not, is one answer of the backend. */
  lemma {:induction false} ResultsAreAnswers(c: Config, schedule: seq<Action>, item: Item) returns (i: nat)
    requires Runs(c, schedule) && Has(After(c, schedule), item)
    ensures MadeAt(c, schedule, item, i)
  {
    if schedule == [] {
      NothingAtFirst(c, item);
      assert false;
    } else {
      var n := |schedule| - 1;
      var s := After(c, schedule[..n]);
      MadeStep(c, s, schedule[n], item);
      if Has(s, item) {
        i := ResultsAreAnswers(c, schedule[..n], item);
        assert schedule[..n][..i] == schedule[..i];
      } else {
        i := n;
      }
    }
  }

  lemma NothingAtFirst(c: Config, item: Item)
    ensures !Has(Init(c), item)
  {
  }

  /** What `run` returns are such answers: the worker, the task and the result are those of one
      backend call. */
  lemma ReturnedAreAnswers(c: Config, schedule: seq<Action>, item: Item) returns (i: nat)
    requires Runs(c, schedule)
    ensures item in SortResults(c, After(c, schedule).results) ==> MadeAt(c, schedule, item, i)
  {
    var results := After(c, schedule).results;
    SortedHave(c, results, item);
    if item in results {
      i := ResultsAreAnswers(c, schedule, item);
    } else {
      i := 0;
    }
  }

  lemma SortedHave(c: Config, results: seq<Item>, item: Item)
    ensures item in SortResults(c, results) <==> item in results
  {
    SortedByIndex(c, results);
    assert item in multiset(SortResults(c, results)) <==> item in multiset(results);
  }
}
