/** When the allocator of src/queue.rs serves everybody, and when a waiter can sleep beside a free
    number or be stranded: the exact bounds on the number of callers. */
module QueueBounds {
  import opened Types
  import opened Queue

  // Conservation in numbers

  predicate Owner(caller: Caller) {
    caller.Holding? || caller.Releasing?
  }

  function OwnedBy(caller: Caller): nat {
    if Owner(caller) then 1 else 0
  }

  /** Free and owned numbers make up the pool. */
  predicate Numbered(c: Config, s: State) {
    |s.callers| == c.callers && |s.available| + Sum(s.callers, OwnedBy) == c.count
  }

  lemma NumberedByPush(c: Config, s: State, i: nat)
    requires Inv(c, s) && Numbered(c, s) && Enabled(c, s, PushBack(i))
    ensures Numbered(c, Next(c, s, PushBack(i)))
  {
    GuardNeverFires(c, s, i);
    SumUpdate(s.callers, OwnedBy, i, Served);
    if s.waiters != [] {
      assert s.callers[s.waiters[0]].Waiting?;
      SumUpdate(s.callers[i := Served], OwnedBy, s.waiters[0], Woken);
    }
  }

  lemma NumberedStep(c: Config, s: State, a: Action)
    requires Inv(c, s) && Numbered(c, s) && Enabled(c, s, a)
    ensures Numbered(c, Next(c, s, a))
  {
    match a
    case Poll(i) =>
      SumUpdate(s.callers, OwnedBy, i, if s.available == [] then Leaving else Holding(s.available[0]));
    case Register(i) =>
      SumUpdate(s.callers, OwnedBy, i, if s.permit then Woken else Waiting);
    case LetGo(i) =>
      SumUpdate(s.callers, OwnedBy, i, Releasing(s.callers[i].qnum));
    case PushBack(i) =>
      NumberedByPush(c, s, i);
    case Abandon(i) =>
      SumUpdate(s.callers, OwnedBy, i, Abandoned);
  }

  lemma {:induction false} NumberedAlways(c: Config, h: seq<Action>)
    requires ValidConfig(c) && Runs(c, h)
    ensures Numbered(c, After(c, h))
  {
    if h == [] {
      SumAtStart(c.callers, OwnedBy);
    } else {
      var before := h[..|h| - 1];
      NumberedAlways(c, before);
      InvAlways(c, before);
      NumberedStep(c, After(c, before), h[|h| - 1]);
    }
  }

  lemma {:induction false} OwnersAtMost(callers: seq<Caller>)
    ensures Sum(callers, OwnedBy) <= |callers|
  {
    if callers != [] {
      OwnersAtMost(callers[1..]);
    }
  }

  lemma TwoOwnNothing(callers: seq<Caller>, i: nat, k: nat)
    requires i < |callers| && k < |callers| && i != k && !Owner(callers[i]) && !Owner(callers[k])
    ensures Sum(callers, OwnedBy) + 2 <= |callers|
  {
    var one := callers[i := Holding(0)];
    SumUpdate(callers, OwnedBy, i, Holding(0));
    SumUpdate(one, OwnedBy, k, Holding(0));
    OwnersAtMost(one[k := Holding(0)]);
  }

  // At most one caller more than numbers

  predicate Blocks(caller: Caller) {
    caller.Leaving? || caller.Waiting?
  }

  /** Every other caller has got its number. */
  ghost predicate Alone(s: State, i: nat) {
    forall k | 0 <= k < |s.callers| && k != i :: Owner(s.callers[k]) || s.callers[k].Served?
  }

  /** Whoever is blocked is the only one without a number, and nothing is free unless a permit is
      stored for it. */
  ghost predicate Uncrowded(s: State) {
    forall i | 0 <= i < |s.callers| && Blocks(s.callers[i]) :: Alone(s, i) && (!s.permit ==> s.available == [])
  }

  lemma UncrowdedByPoll(c: Config, s: State, i: nat)
    requires c.callers <= c.count + 1 && Numbered(c, s) && Uncrowded(s) && Enabled(c, s, Poll(i))
    ensures Uncrowded(Polled(s, i))
  {
    var t := Polled(s, i);
    assert forall j | 0 <= j < |s.callers| && Blocks(s.callers[j]) :: Alone(s, j) && j != i;
    assert forall j | 0 <= j < |s.callers| :: !Blocks(s.callers[j]);
    assert forall k | 0 <= k < |s.callers| && k != i :: t.callers[k] == s.callers[k];
    if s.available == [] {
      forall k | 0 <= k < |s.callers| && k != i ensures Owner(s.callers[k]) {
        if !Owner(s.callers[k]) {
          TwoOwnNothing(s.callers, i, k);
        }
      }
    }
  }

  lemma UncrowdedByRegister(c: Config, s: State, i: nat)
    requires Uncrowded(s) && Enabled(c, s, Register(i))
    ensures Uncrowded(Registered(s, i))
  {
    var t := Registered(s, i);
    assert Alone(s, i);
    assert forall k | 0 <= k < |s.callers| && k != i :: t.callers[k] == s.callers[k] && !Blocks(t.callers[k]);
  }

  lemma UncrowdedByPush(c: Config, s: State, i: nat)
    requires Inv(c, s) && Uncrowded(s) && Enabled(c, s, PushBack(i))
    ensures Uncrowded(Next(c, s, PushBack(i)))
  {
    var t := Next(c, s, PushBack(i));
    GuardNeverFires(c, s, i);
    assert s.waiters != [] ==> Blocks(s.callers[s.waiters[0]]) && Alone(s, s.waiters[0]);
    forall j | 0 <= j < |t.callers| && Blocks(t.callers[j]) ensures Alone(t, j) && t.permit {
      assert t.callers[j] == s.callers[j];
    }
  }

  lemma UncrowdedByAbandon(c: Config, s: State, i: nat)
    requires Uncrowded(s) && Enabled(c, s, Abandon(i))
    ensures Uncrowded(Next(c, s, Abandon(i)))
  {
    var t := Next(c, s, Abandon(i));
    assert forall j | 0 <= j < |s.callers| && Blocks(s.callers[j]) :: Alone(s, j);
    assert forall j | 0 <= j < |t.callers| && j != i :: t.callers[j] == s.callers[j] && !Blocks(t.callers[j]);
  }

  lemma UncrowdedByLetGo(c: Config, s: State, i: nat)
    requires Uncrowded(s) && Enabled(c, s, LetGo(i))
    ensures Uncrowded(Next(c, s, LetGo(i)))
  {
    var t := Next(c, s, LetGo(i));
    forall j | 0 <= j < |t.callers| && Blocks(t.callers[j]) ensures Alone(t, j) && (!t.permit ==> t.available == []) {
      assert t.callers[j] == s.callers[j] && Alone(s, j);
    }
  }

  lemma {:induction false} UncrowdedAlways(c: Config, h: seq<Action>)
    requires ValidConfig(c) && Runs(c, h) && c.callers <= c.count + 1
    ensures Uncrowded(After(c, h))
  {
    if h != [] {
      var before := h[..|h| - 1];
      UncrowdedAlways(c, before);
      InvAlways(c, before);
      NumberedAlways(c, before);
      var s := After(c, before);
      match h[|h| - 1]
      case Poll(i) => UncrowdedByPoll(c, s, i);
      case Register(i) => UncrowdedByRegister(c, s, i);
      case LetGo(i) => UncrowdedByLetGo(c, s, i);
      case PushBack(i) => UncrowdedByPush(c, s, i);
      case Abandon(i) => UncrowdedByAbandon(c, s, i);
    }
  }

  // Nobody is stranded

  /** When a caller can be left waiting for good: wakeups can be lost and two callers can find the
      pool empty at once. */
  predicate CanStrand(c: Config) {
    c.losesWakeups && c.callers >= c.count + 2
  }

  /** Some number is always free or owned. */
  lemma SomethingThere(c: Config, s: State)
    requires ValidConfig(c) && Partition(c, s)
    ensures s.available != [] || exists k | 0 <= k < |s.callers| :: Owner(s.callers[k])
  {
    assert InPool(c, Qnum(c, 0));
    if s.available == [] {
      var k :| 0 <= k < |s.callers| && s.callers[k].Owns(Qnum(c, 0));
      assert Owner(s.callers[k]);
    }
  }

  /** While any caller is blocked there is a lease, a stored permit or a woken caller. */
  lemma NobodyIsStranded(c: Config, h: seq<Action>)
    requires ValidConfig(c) && Runs(c, h) && !CanStrand(c)
    ensures Blocked(After(c, h)) ==> Hope(After(c, h))
  {
    var s := After(c, h);
    InvAlways(c, h);
    if c.losesWakeups && Blocked(s) {
      UncrowdedAlways(c, h);
      var i :| 0 <= i < |s.callers| && (s.callers[i].Leaving? || s.callers[i].Waiting?);
      assert Blocks(s.callers[i]);
      SomethingThere(c, s);
      if !s.permit {
        var k :| 0 <= k < |s.callers| && Owner(s.callers[k]);
        assert s.callers[k].Holding? || s.callers[k].Releasing?;
      }
    }
  }

  /** A caller that is not finished can step, or waits, and then somebody else can step. */
  lemma HopeMoves(c: Config, h: seq<Action>, i: nat)
    requires ValidConfig(c) && Runs(c, h) && !CanStrand(c)
    requires i < |After(c, h).callers| && !Finished(After(c, h).callers[i])
    ensures CanStep(c, After(c, h))
  {
    var s := After(c, h);
    InvAlways(c, h);
    if s.callers[i].Waiting? {
      assert i in s.waiters && Blocked(s);
      NobodyIsStranded(c, h);
      var k :| 0 <= k < |s.callers| && (s.callers[k].Woken? || s.callers[k].Holding? || s.callers[k].Releasing?);
      StepOf(c, s, k);
    } else {
      StepOf(c, s, i);
    }
  }

  /** A run that cannot go on has served every caller that did not give up, and all queue numbers
      are back. With `RunsAreShort`, every schedule gets there. */
  lemma EveryoneIsServed(c: Config, h: seq<Action>)
    requires ValidConfig(c) && Runs(c, h) && !CanStrand(c)
    ensures var s := After(c, h);
            !CanStep(c, s) <==> forall i | 0 <= i < |s.callers| :: Finished(s.callers[i])
    ensures var s := After(c, h);
            !CanStep(c, s) ==> forall q: nat :: q in s.available <==> InPool(c, q)
  {
    var s := After(c, h);
    InvAlways(c, h);
    if CanStep(c, s) {
      var a :| Enabled(c, s, a) && !a.Abandon?;
      assert !Finished(s.callers[a.i]);
    } else {
      forall i | 0 <= i < |s.callers| ensures Finished(s.callers[i]) {
        if !Finished(s.callers[i]) {
          HopeMoves(c, h, i);
        }
      }
    }
  }

  // Crowded runs, step by step

  /** The first `k` callers hold the first `k` numbers. */
  ghost predicate Hired(c: Config, s: State, k: nat) {
    && |s.callers| == c.callers && s.waiters == [] && !s.permit
    && k <= c.count && |s.available| == c.count - k
    && forall i | 0 <= i < |s.callers| :: if i < k then s.callers[i].Holding? else s.callers[i].Starting?
  }

  lemma {:induction false} Hires(c: Config, k: nat) returns (h: seq<Action>)
    requires ValidConfig(c) && k <= c.count && k <= c.callers
    ensures Runs(c, h) && Hired(c, After(c, h), k)
  {
    if k == 0 {
      h := [];
    } else {
      h := Hires(c, k - 1);
      Extend(c, h, Poll(k - 1));
      h := h + [Poll(k - 1)];
    }
  }

  /** All numbers are held, and the two callers after the holders have seen the empty pool. */
  ghost predicate Crowded(c: Config, s: State, permit: bool) {
    && |s.callers| == c.callers >= c.count + 2 && s.waiters == [] && s.permit == permit
    && s.callers[c.count].Leaving? && s.callers[c.count + 1].Leaving?
    && forall i | c.count + 2 <= i < |s.callers| :: s.callers[i].Starting?
  }

  lemma Crowds(c: Config) returns (h: seq<Action>)
    requires ValidConfig(c) && c.callers >= c.count + 2
    ensures Runs(c, h) && Crowded(c, After(c, h), false) && After(c, h).available == []
    ensures forall i | 0 <= i < c.count :: After(c, h).callers[i].Holding?
  {
    h := Hires(c, c.count);
    Extend(c, h, Poll(c.count));
    h := h + [Poll(c.count)];
    Extend(c, h, Poll(c.count + 1));
    h := h + [Poll(c.count + 1)];
  }

  /** One holder returns its number. */
  lemma GivesBack(c: Config, before: seq<Action>, i: nat) returns (h: seq<Action>)
    requires ValidConfig(c) && Runs(c, before)
    requires i < |After(c, before).callers| && After(c, before).callers[i].Holding?
    ensures var s := After(c, before);
            Runs(c, h)
            && After(c, h) == Notify(s.(callers := s.callers[i := Served], available := s.available + [s.callers[i].qnum]))
  {
    var s := After(c, before);
    Extend(c, before, LetGo(i));
    h := before + [LetGo(i)];
    InvAlways(c, h);
    GuardNeverFires(c, After(c, h), i);
    Extend(c, h, PushBack(i));
    h := h + [PushBack(i)];
    assert s.callers[i := Releasing(s.callers[i].qnum)][i := Served] == s.callers[i := Served];
  }

  /** Both late callers register, and then a number comes back: it wakes only one of them. */
  lemma Oversleeps(c: Config) returns (h: seq<Action>)
    requires ValidConfig(c) && c.callers >= c.count + 2
    ensures Sleeps(c, h)
  {
    h := Crowds(c);
    Extend(c, h, Register(c.count));
    h := h + [Register(c.count)];
    Extend(c, h, Register(c.count + 1));
    h := h + [Register(c.count + 1)];
    h := GivesBack(c, h, 0);
    assert After(c, h).callers[c.count + 1].Waiting?;
  }

  /** A caller waits although a number is free. */
  ghost predicate Sleeps(c: Config, h: seq<Action>) {
    && Runs(c, h) && After(c, h).available != []
    && exists i | 0 <= i < |After(c, h).callers| :: After(c, h).callers[i].Waiting?
  }

  /** A waiter can sleep beside a free number if and only if there are two callers more than
      numbers, whether wakeups can be lost or not. */
  lemma SleepsIff(c: Config)
    requires ValidConfig(c)
    ensures (exists h :: Sleeps(c, h)) <==> c.callers >= c.count + 2
  {
    if c.callers >= c.count + 2 {
      var h := Oversleeps(c);
    } else {
      forall h | Runs(c, h) ensures !Sleeps(c, h) {
        UncrowdedAlways(c, h);
        InvAlways(c, h);
        assert forall i | 0 <= i < |After(c, h).callers| && After(c, h).callers[i].Waiting? :: Blocks(After(c, h).callers[i]);
      }
    }
  }

  /** The first `k` holders have returned their numbers while nobody was registered: all these
      notifications make one permit. */
  lemma {:induction false} Returns(c: Config, k: nat) returns (h: seq<Action>)
    requires ValidConfig(c) && c.callers >= c.count + 2 && k <= c.count
    ensures Runs(c, h) && Crowded(c, After(c, h), k > 0)
    ensures forall i | 0 <= i < c.count ::
              if i < k then After(c, h).callers[i].Served? else After(c, h).callers[i].Holding?
  {
    if k == 0 {
      h := Crowds(c);
    } else {
      h := Returns(c, k - 1);
      h := GivesBack(c, h, k - 1);
    }
  }

  /** Everybody is finished but one waiter and the callers from `k` on, which have not started. */
  ghost predicate Left(c: Config, s: State, k: nat) {
    && |s.callers| == c.callers >= c.count + 2 && s.callers[c.count + 1].Waiting?
    && forall i | 0 <= i < |s.callers| && i != c.count + 1 ::
         if i < k then Finished(s.callers[i]) else s.callers[i].Starting?
  }

  /** The permit wakes the first late caller, which is dropped; the second one registers too late. */
  lemma LosesThePermit(c: Config) returns (h: seq<Action>)
    requires ValidConfig(c) && CanStrand(c)
    ensures Runs(c, h) && Left(c, After(c, h), c.count + 2)
  {
    h := Returns(c, c.count);
    Extend(c, h, Register(c.count));
    h := h + [Register(c.count)];
    Extend(c, h, Abandon(c.count));
    h := h + [Abandon(c.count)];
    Extend(c, h, Register(c.count + 1));
    h := h + [Register(c.count + 1)];
  }

  lemma {:induction false} OthersGiveUp(c: Config, k: nat) returns (h: seq<Action>)
    requires ValidConfig(c) && CanStrand(c) && c.count + 2 <= k <= c.callers
    ensures Runs(c, h) && Left(c, After(c, h), k)
  {
    if k == c.count + 2 {
      h := LosesThePermit(c);
    } else {
      h := OthersGiveUp(c, k - 1);
      Extend(c, h, Abandon(k - 1));
      h := h + [Abandon(k - 1)];
    }
  }

  /** Nobody can go on although somebody is not finished. */
  ghost predicate Strands(c: Config, h: seq<Action>) {
    && Runs(c, h) && !CanStep(c, After(c, h))
    && exists i | 0 <= i < |After(c, h).callers| :: !Finished(After(c, h).callers[i])
  }

  /** A caller can be stranded if and only if notified callers can be dropped before they retry and
      there are two callers more than numbers. */
  lemma StrandsIff(c: Config)
    requires ValidConfig(c)
    ensures (exists h :: Strands(c, h)) <==> CanStrand(c)
  {
    if CanStrand(c) {
      var h := OthersGiveUp(c, c.callers);
      assert !Finished(After(c, h).callers[c.count + 1]);
      assert Strands(c, h);
    } else {
      forall h | Runs(c, h) ensures !Strands(c, h) {
        EveryoneIsServed(c, h);
      }
    }
  }
}
