/** The queue-number allocator of src/queue.rs as a transition system over its callers.

    One action is one atomic section: the locked `pop_front`, one poll of `notified`, or the
    locked push-and-notify of `release_qnum`. Registering a waiter takes no lock, but it commutes
    with the push, so push and notification may be one step. */
module Queue {
  import opened Types

  const U16: nat := 0x1_0000

  /** `callers` calls of `acquire`, in any interleaving. With `losesWakeups` a caller may also be
      dropped after its notification was delivered and before it retries the pop. */
  datatype Config = Config(base: nat, count: nat, callers: nat, losesWakeups: bool)

  predicate ValidConfig(c: Config) {
    c.base < U16 && 0 < c.count < U16
  }

  /** Where one `acquire` call and the lease it returns stand. `Leaving` has seen an empty pool
      and dropped the guard, `Waiting` is registered with the notifier, `Woken` was notified.
      `Releasing` is a lease that was released or dropped and whose push is still pending. */
  datatype Caller =
    | Starting | Leaving | Waiting | Woken
    | Holding(qnum: nat) | Releasing(qnum: nat)
    | Served | Abandoned
  {
    predicate Owns(q: nat) {
      (Holding? || Releasing?) && qnum == q
    }
  }

  datatype State = State(
    available: seq<nat>, waiters: seq<nat>, permit: bool, callers: seq<Caller>)

  datatype Action = Poll(i: nat) | Register(i: nat) | LetGo(i: nat) | PushBack(i: nat) | Abandon(i: nat)

  /** `base_qnum + n` in sixteen bits. */
  function Qnum(c: Config, n: int): nat {
    (c.base + n) % U16
  }

  function Init(c: Config): State {
    State(seq(c.count, n => Qnum(c, n)), [], false, seq(c.callers, i => Starting))
  }

  predicate Enabled(c: Config, s: State, a: Action) {
    && a.i < |s.callers|
    && match a
       case Poll(i) => s.callers[i].Starting? || s.callers[i].Woken?
       case Register(i) => s.callers[i].Leaving?
       case LetGo(i) => s.callers[i].Holding?
       case PushBack(i) => s.callers[i].Releasing?
       case Abandon(i) =>
         s.callers[i].Starting? || s.callers[i].Waiting? || (c.losesWakeups && s.callers[i].Woken?)
  }

  function WithCaller(s: State, i: nat, caller: Caller): State
    requires i < |s.callers|
  {
    s.(callers := s.callers[i := caller])
  }

  /** `notify_one`: the oldest waiter is woken, or one permit is stored. */
  function Notify(s: State): State {
    if s.waiters == [] then s.(permit := true)
    else if s.waiters[0] < |s.callers| then
      WithCaller(s.(waiters := s.waiters[1..]), s.waiters[0], Woken)
    else s
  }

  function Without(xs: seq<nat>, x: nat): seq<nat> {
    if xs == [] then [] else (if xs[0] == x then [] else [xs[0]]) + Without(xs[1..], x)
  }

  function Polled(s: State, i: nat): State
    requires i < |s.callers|
  {
    if s.available == [] then WithCaller(s, i, Leaving)
    else WithCaller(s, i, Holding(s.available[0])).(available := s.available[1..])
  }

  function Registered(s: State, i: nat): State
    requires i < |s.callers|
  {
    if s.permit then WithCaller(s, i, Woken).(permit := false)
    else WithCaller(s, i, Waiting).(waiters := s.waiters + [i])
  }

  function PushedBack(s: State, i: nat, q: nat): State
    requires i < |s.callers|
  {
    var t := WithCaller(s, i, Served);
    if q in s.available then t else Notify(t.(available := s.available + [q]))
  }

  function Next(c: Config, s: State, a: Action): State
    requires Enabled(c, s, a)
  {
    match a
    case Poll(i) => Polled(s, i)
    case Register(i) => Registered(s, i)
    case LetGo(i) => WithCaller(s, i, Releasing(s.callers[i].qnum))
    case PushBack(i) => PushedBack(s, i, s.callers[i].qnum)
    case Abandon(i) => WithCaller(s, i, Abandoned).(waiters := Without(s.waiters, i))
  }

  predicate Runs(c: Config, h: seq<Action>)
    decreases |h|, 0
  {
    h == [] || (Runs(c, h[..|h| - 1]) && Enabled(c, After(c, h[..|h| - 1]), h[|h| - 1]))
  }

  function After(c: Config, h: seq<Action>): State
    requires Runs(c, h)
    decreases |h|, 1
  {
    if h == [] then Init(c) else Next(c, After(c, h[..|h| - 1]), h[|h| - 1])
  }

  // ---------------------------------------------------------------- the partition of the qnums

  ghost predicate Apart(c: Config, s: State) {
    && (forall j, k | 0 <= j < k < |s.available| :: s.available[j] != s.available[k])
    && (forall i, q | 0 <= i < |s.callers| && s.callers[i].Owns(q) :: q !in s.available)
    && (forall i, k, q | 0 <= i < |s.callers| && 0 <= k < |s.callers| && s.callers[i].Owns(q) && s.callers[k].Owns(q) ::
          i == k)
  }

  predicate InPool(c: Config, q: nat) {
    exists n | 0 <= n < c.count :: Qnum(c, n) == q
  }

  predicate Owned(s: State, q: nat) {
    exists i | 0 <= i < |s.callers| :: s.callers[i].Owns(q)
  }

  ghost predicate Covered(c: Config, s: State) {
    forall q: nat :: InPool(c, q) <==> (q in s.available || Owned(s, q))
  }

  /** Every number of the pool is in exactly one place: once in `available`, or with one caller. */
  ghost predicate Partition(c: Config, s: State) {
    |s.callers| == c.callers && Apart(c, s) && Covered(c, s)
  }

  lemma QnumsDistinct(c: Config, j: nat, k: nat)
    requires ValidConfig(c) && j < k < c.count
    ensures Qnum(c, j) != Qnum(c, k)
  {
  }

  lemma InitPartition(c: Config)
    requires ValidConfig(c)
    ensures Partition(c, Init(c))
  {
    var s := Init(c);
    forall q: nat ensures InPool(c, q) <==> (q in s.available || Owned(s, q)) {
      assert forall n | 0 <= n < c.count :: s.available[n] == Qnum(c, n);
    }
  }

  /** A caller that owned nothing and owns nothing afterwards changes no ownership. */
  lemma OwnsNothing(s: State, t: State, i: nat, q: nat)
    requires |t.callers| == |s.callers| && i < |s.callers|
    requires forall k | 0 <= k < |s.callers| && k != i :: t.callers[k].Owns(q) == s.callers[k].Owns(q)
    requires t.callers[i].Owns(q) == s.callers[i].Owns(q)
    ensures Owned(t, q) == Owned(s, q)
  {
    if Owned(s, q) {
      var k :| 0 <= k < |s.callers| && s.callers[k].Owns(q);
      assert t.callers[k].Owns(q);
    }
    if Owned(t, q) {
      var k :| 0 <= k < |t.callers| && t.callers[k].Owns(q);
      assert s.callers[k].Owns(q);
    }
  }

  /** Nothing moves when every caller owns what it owned. */
  lemma SameOwners(c: Config, s: State, t: State)
    requires Partition(c, s) && t.available == s.available && |t.callers| == |s.callers|
    requires forall k, q | 0 <= k < |s.callers| :: t.callers[k].Owns(q) == s.callers[k].Owns(q)
    ensures Partition(c, t)
  {
    forall q: nat ensures Owned(t, q) == Owned(s, q) {
      if |s.callers| > 0 {
        OwnsNothing(s, t, 0, q);
      }
    }
  }

  lemma TakePartition(c: Config, s: State, i: nat)
    requires Partition(c, s) && i < |s.callers| && s.available != []
    requires !s.callers[i].Holding? && !s.callers[i].Releasing?
    ensures Partition(c, Polled(s, i))
  {
    var t := Polled(s, i);
    var taken := s.available[0];
    assert forall j | 0 <= j < |t.available| :: t.available[j] == s.available[j + 1];
    forall k, q | 0 <= k < |t.callers| && t.callers[k].Owns(q) ensures k == i || (s.callers[k].Owns(q) && q != taken) {
      if k != i {
        assert t.callers[k] == s.callers[k] && taken in s.available;
        assert s.callers[k].Owns(q);
      }
    }
    assert forall q | q in t.available :: q in s.available && q != taken;
    assert forall q | q in s.available && q != taken :: q in t.available;
    assert t.callers[i].Owns(taken);
    forall q: nat ensures InPool(c, q) <==> (q in t.available || Owned(t, q)) {
      if q != taken {
        OwnsNothing(s, t, i, q);
      }
    }
  }

  lemma GivePartition(c: Config, s: State, i: nat, t: State, q: nat)
    requires Partition(c, s) && i < |s.callers| && s.callers[i].Owns(q)
    requires t.available == s.available + [q] && t.callers == s.callers[i := Served]
    ensures Partition(c, t)
  {
    forall k, p | 0 <= k < |t.callers| && t.callers[k].Owns(p) ensures k != i && s.callers[k].Owns(p) && p != q {
    }
    assert q !in s.available;
    assert forall j | 0 <= j < |s.available| :: t.available[j] == s.available[j] && s.available[j] != q;
    forall p: nat ensures InPool(c, p) <==> (p in t.available || Owned(t, p)) {
      if p == q {
        assert Owned(s, q);
      } else {
        OwnsNothing(s, t, i, p);
      }
    }
  }

  // ---------------------------------------------------------------- the notifier

  /** The registered waiters are exactly the callers that wait, and a permit is only stored when
      nobody is registered. */
  ghost predicate Registry(s: State) {
    && (forall k | 0 <= k < |s.waiters| :: s.waiters[k] < |s.callers| && s.callers[s.waiters[k]].Waiting?)
    && (forall j, k | 0 <= j < k < |s.waiters| :: s.waiters[j] != s.waiters[k])
    && (forall i | 0 <= i < |s.callers| && s.callers[i].Waiting? :: i in s.waiters)
    && (s.permit ==> s.waiters == [])
  }

  predicate Blocked(s: State) {
    exists i | 0 <= i < |s.callers| :: s.callers[i].Leaving? || s.callers[i].Waiting?
  }

  /** Somebody or something can still let a blocked caller continue. */
  predicate Hope(s: State) {
    s.permit
    || exists i | 0 <= i < |s.callers| :: s.callers[i].Woken? || s.callers[i].Holding? || s.callers[i].Releasing?
  }

  lemma {:induction false} WithoutKeepsOthers(xs: seq<nat>, x: nat)
    ensures forall y :: y in Without(xs, x) <==> y in xs && y != x
    ensures (forall j, k | 0 <= j < k < |xs| :: xs[j] != xs[k])
            ==> forall j, k | 0 <= j < k < |Without(xs, x)| :: Without(xs, x)[j] != Without(xs, x)[k]
  {
    if xs != [] {
      WithoutKeepsOthers(xs[1..], x);
      var rest := Without(xs[1..], x);
      if forall j, k | 0 <= j < k < |xs| :: xs[j] != xs[k] {
        assert forall j, k | 0 <= j < k < |xs[1..]| :: xs[1..][j] == xs[j + 1] && xs[1..][k] == xs[k + 1];
        assert xs[0] !in rest;
      }
    }
  }

  lemma NotifyFacts(c: Config, s: State)
    requires Registry(s) && Partition(c, s)
    ensures Registry(Notify(s)) && Partition(c, Notify(s)) && Hope(Notify(s))
  {
    var t := Notify(s);
    if s.waiters != [] {
      var woken := s.waiters[0];
      assert t.callers[woken].Woken?;
      assert forall i | 0 <= i < |s.callers| && i != woken :: t.callers[i] == s.callers[i];
      forall i | 0 <= i < |t.callers| && t.callers[i].Waiting? ensures i in t.waiters {
        assert i in s.waiters;
      }
      SameOwners(c, s, t);
    } else {
      SameOwners(c, s, t);
    }
  }

  // ---------------------------------------------------------------- which numbers these are

  /** The numbers of the pool: `base`, `base + 1`, ..., starting again from 0 after 65535. */
  lemma PoolNumbers(c: Config, n: nat)
    requires ValidConfig(c) && n < c.count
    ensures Qnum(c, n) == if c.base + n < 65536 then c.base + n else c.base + n - 65536
  {
  }

  /** Without a wrap the pool is the range from `base` on. */
  lemma PoolIsRange(c: Config, q: nat)
    requires ValidConfig(c) && c.base + c.count <= 65536
    ensures InPool(c, q) <==> c.base <= q < c.base + c.count
  {
    if c.base <= q < c.base + c.count {
      PoolNumbers(c, q - c.base);
    }
  }

  // ---------------------------------------------------------------- every step keeps them

  ghost predicate Inv(c: Config, s: State) {
    && Partition(c, s) && Registry(s)
    && (!c.losesWakeups && Blocked(s) ==> Hope(s))
  }

  lemma PollKeeps(c: Config, s: State, i: nat)
    requires ValidConfig(c) && Inv(c, s) && Enabled(c, s, Poll(i))
    ensures Inv(c, Polled(s, i))
  {
    var t := Polled(s, i);
    if s.available != [] {
      TakePartition(c, s, i);
      assert t.callers[i].Holding?;
    } else {
      SameOwners(c, s, t);
      assert InPool(c, Qnum(c, 0));
      var k :| 0 <= k < |s.callers| && s.callers[k].Owns(Qnum(c, 0));
      assert t.callers[k] == s.callers[k];
    }
  }

  lemma RegisterKeeps(c: Config, s: State, i: nat)
    requires Inv(c, s) && Enabled(c, s, Register(i))
    ensures Inv(c, Registered(s, i))
  {
    var t := Registered(s, i);
    SameOwners(c, s, t);
    if s.permit {
      assert t.callers[i].Woken?;
    } else {
      assert forall k | 0 <= k < |s.waiters| :: s.waiters[k] != i;
      assert s.callers[i].Leaving?;
      if !c.losesWakeups {
        assert Blocked(s);
        var k :| 0 <= k < |s.callers| && (s.callers[k].Woken? || s.callers[k].Holding? || s.callers[k].Releasing?);
        assert t.callers[k] == s.callers[k];
      }
    }
  }

  lemma LetGoKeeps(c: Config, s: State, i: nat)
    requires Inv(c, s) && Enabled(c, s, LetGo(i))
    ensures Inv(c, Next(c, s, LetGo(i)))
  {
    var t := Next(c, s, LetGo(i));
    SameOwners(c, s, t);
    assert t.callers[i].Releasing?;
  }

  /** The `contains` guard of `release_qnum` never suppresses a release. */
  lemma GuardNeverFires(c: Config, s: State, i: nat)
    requires Partition(c, s) && Enabled(c, s, PushBack(i))
    ensures s.callers[i].qnum !in s.available
  {
    assert s.callers[i].Owns(s.callers[i].qnum);
  }

  lemma PushBackKeeps(c: Config, s: State, i: nat)
    requires Inv(c, s) && Enabled(c, s, PushBack(i))
    ensures Inv(c, Next(c, s, PushBack(i))) && Hope(Next(c, s, PushBack(i)))
  {
    var q := s.callers[i].qnum;
    GuardNeverFires(c, s, i);
    var t := WithCaller(s, i, Served).(available := s.available + [q]);
    GivePartition(c, s, i, t, q);
    assert Registry(t);
    NotifyFacts(c, t);
  }

  lemma AbandonKeeps(c: Config, s: State, i: nat)
    requires Inv(c, s) && Enabled(c, s, Abandon(i))
    ensures Inv(c, Next(c, s, Abandon(i)))
  {
    var t := Next(c, s, Abandon(i));
    SameOwners(c, s, t);
    WithoutKeepsOthers(s.waiters, i);
    assert forall k | 0 <= k < |t.waiters| :: t.waiters[k] in t.waiters;
    if !c.losesWakeups && Blocked(t) {
      var b :| 0 <= b < |t.callers| && (t.callers[b].Leaving? || t.callers[b].Waiting?);
      assert s.callers[b] == t.callers[b];
      if !s.permit {
        var k :| 0 <= k < |s.callers| && (s.callers[k].Woken? || s.callers[k].Holding? || s.callers[k].Releasing?);
        assert t.callers[k] == s.callers[k];
      }
    }
  }

  lemma {:induction false} InvAlways(c: Config, h: seq<Action>)
    requires ValidConfig(c) && Runs(c, h)
    ensures Inv(c, After(c, h))
  {
    if h == [] {
      InitPartition(c);
    } else {
      var before := h[..|h| - 1];
      InvAlways(c, before);
      var s := After(c, before);
      match h[|h| - 1]
      case Poll(i) => PollKeeps(c, s, i);
      case Register(i) => RegisterKeeps(c, s, i);
      case LetGo(i) => LetGoKeeps(c, s, i);
      case PushBack(i) => PushBackKeeps(c, s, i);
      case Abandon(i) => AbandonKeeps(c, s, i);
    }
  }

  // ---------------------------------------------------------------- main theorems

  /** No two callers ever own the same queue number, an owned number is not for hire, and no
      number leaves the pool or enters it. */
  lemma LeasesPartitionThePool(c: Config, h: seq<Action>)
    requires ValidConfig(c) && Runs(c, h)
    ensures Partition(c, After(c, h))
  {
    InvAlways(c, h);
  }

  /** In every reachable state a number is free or owned exactly when it is one of the `count` numbers
      from `base` on. */
  lemma NumbersAreTheRange(c: Config, h: seq<Action>, q: nat)
    requires ValidConfig(c) && Runs(c, h) && c.base + c.count <= 65536
    ensures var s := After(c, h);
            (q in s.available || exists i | 0 <= i < |s.callers| :: s.callers[i].Owns(q))
            <==> c.base <= q < c.base + c.count
  {
    InvAlways(c, h);
    PoolIsRange(c, q);
    assert Owned(After(c, h), q) <==> exists i | 0 <= i < |After(c, h).callers| :: After(c, h).callers[i].Owns(q);
  }

  predicate Finished(caller: Caller) {
    caller.Served? || caller.Abandoned?
  }

  /** Steps the callers take by themselves; giving up is not needed for anyone to progress. */
  ghost predicate CanStep(c: Config, s: State) {
    exists a :: Enabled(c, s, a) && !a.Abandon?
  }

  lemma StepOf(c: Config, s: State, i: nat)
    requires i < |s.callers| && !Finished(s.callers[i]) && !s.callers[i].Waiting?
    ensures CanStep(c, s)
  {
    match s.callers[i]
    case Starting => assert Enabled(c, s, Poll(i));
    case Woken => assert Enabled(c, s, Poll(i));
    case Leaving => assert Enabled(c, s, Register(i));
    case Holding(_) => assert Enabled(c, s, LetGo(i));
    case Releasing(_) => assert Enabled(c, s, PushBack(i));
  }

  function Weight(caller: Caller): nat {
    match caller
    case Starting => 5
    case Woken => 5
    case Leaving => 4
    case Waiting => 3
    case Holding(_) => 4
    case Releasing(_) => 3
    case _ => 0
  }

  function Sum(callers: seq<Caller>, weight: Caller -> nat): nat {
    if callers == [] then 0 else weight(callers[0]) + Sum(callers[1..], weight)
  }

  lemma {:induction false} SumUpdate(callers: seq<Caller>, weight: Caller -> nat, i: nat, x: Caller)
    requires i < |callers|
    ensures Sum(callers[i := x], weight) + weight(callers[i]) == Sum(callers, weight) + weight(x)
  {
    if i == 0 {
      assert callers[i := x][1..] == callers[1..];
    } else {
      assert callers[i := x][1..] == callers[1..][i - 1 := x];
      SumUpdate(callers[1..], weight, i - 1, x);
    }
  }

  lemma {:induction false} SumAtStart(n: nat, weight: Caller -> nat)
    ensures Sum(seq(n, i => Starting), weight) == n * weight(Starting)
  {
    if n > 0 {
      SumAtStart(n - 1, weight);
      assert seq(n, i => Starting)[1..] == seq(n - 1, i => Starting);
    }
  }

  function Rank(s: State): nat {
    Sum(s.callers, Weight) + if s.permit then 2 else 0
  }

  lemma RankFalls(c: Config, s: State, a: Action)
    requires Inv(c, s) && Enabled(c, s, a)
    ensures Rank(Next(c, s, a)) < Rank(s)
  {
    match a
    case Poll(i) =>
      SumUpdate(s.callers, Weight, i, if s.available == [] then Leaving else Holding(s.available[0]));
    case Register(i) =>
      SumUpdate(s.callers, Weight, i, if s.permit then Woken else Waiting);
    case LetGo(i) =>
      SumUpdate(s.callers, Weight, i, Releasing(s.callers[i].qnum));
    case PushBack(i) =>
      GuardNeverFires(c, s, i);
      SumUpdate(s.callers, Weight, i, Served);
      if s.waiters != [] {
        assert s.callers[s.waiters[0]].Waiting?;
        SumUpdate(s.callers[i := Served], Weight, s.waiters[0], Woken);
      }
    case Abandon(i) =>
      SumUpdate(s.callers, Weight, i, Abandoned);
  }

  /** No run is longer than five steps per caller: wakeups are never wasted more often than
      queue numbers are returned. */
  lemma {:induction false} RunsAreShort(c: Config, h: seq<Action>)
    requires ValidConfig(c) && Runs(c, h)
    ensures |h| + Rank(After(c, h)) <= 5 * c.callers
  {
    if h == [] {
      SumAtStart(c.callers, Weight);
    } else {
      var before := h[..|h| - 1];
      RunsAreShort(c, before);
      InvAlways(c, before);
      RankFalls(c, After(c, before), h[|h| - 1]);
    }
  }

  lemma Extend(c: Config, h: seq<Action>, a: Action)
    requires Runs(c, h) && Enabled(c, After(c, h), a)
    ensures Runs(c, h + [a]) && After(c, h + [a]) == Next(c, After(c, h), a)
  {
    assert (h + [a])[..|h|] == h;
  }

  // ---------------------------------------------------------------- the allocator in place

  /** What `pop_front` hands out was nobody's and is handed out once. */
  lemma FrontIsFree(c: Config, s: State)
    requires Partition(c, s) && s.available != []
    ensures !Owned(s, s.available[0]) && s.available[0] !in s.available[1..]
  {
    assert forall j | 0 <= j < |s.available[1..]| :: s.available[1..][j] == s.available[j + 1];
    assert s.available[0] in s.available;
  }

  /** `QueueAllocator`: its deque, the notifier's two fields, and the callers' progress. `Valid`
      says that they are exactly what the run recorded in `history` leads to. */
  class QueueAllocator {
    const c: Config
    var available: seq<nat>
    var waiters: seq<nat>
    var permit: bool
    var callers: seq<Caller>
    ghost var history: seq<Action>

    function Snapshot(): State
      reads this
    {
      State(available, waiters, permit, callers)
    }

    ghost predicate Valid()
      reads this
    {
      ValidConfig(c) && Runs(c, history) && Snapshot() == After(c, history)
    }

    constructor (c: Config)
      requires ValidConfig(c)
      ensures Valid() && this.c == c && history == []
      ensures available == seq(c.count, n => Qnum(c, n))
    {
      this.c := c;
      waiters, permit, callers, history := [], false, seq(c.callers, i => Starting), [];
      new;
      available := [];
      for n := 0 to c.count
        invariant available == seq(n, k => Qnum(c, k))
        invariant this.c == c && history == [] && !permit && waiters == []
        invariant callers == seq(c.callers, i => Starting)
      {
        available := available + [Qnum(c, n)];
      }
    }

    /** `QueueAllocator::new`: only the empty pool is refused. */
    static method New(base: nat, count: nat, callers: nat) returns (r: Result<QueueAllocator>)
      requires base < U16 && count < U16
      ensures r.Err? <==> count == 0
      ensures r.Ok? ==> fresh(r.value) && r.value.Valid() && r.value.c == Config(base, count, callers, false)
                        && r.value.history == []
      ensures r.Ok? ==> |r.value.available| == count
      ensures r.Ok? ==> forall n | 0 <= n < count ::
                r.value.available[n] == if base + n < 65536 then base + n else base + n - 65536
    {
      if count == 0 {
        return Err("no queues configured");
      }
      var allocator := new QueueAllocator(Config(base, count, callers, false));
      forall n | 0 <= n < count
        ensures allocator.available[n] == if base + n < 65536 then base + n else base + n - 65536
      {
        PoolNumbers(allocator.c, n);
      }
      return Ok(allocator);
    }

    ghost method Log(before: State, a: Action)
      requires ValidConfig(c) && Runs(c, history) && before == After(c, history) && Enabled(c, before, a)
      requires Snapshot() == Next(c, before, a)
      modifies this`history
      ensures history == old(history) + [a] && Valid()
    {
      Extend(c, history, a);
      history := history + [a];
    }

    /** One locked pass of `acquire`. A number is handed out exactly when one is free; it is the
        oldest, it was nobody's, and nobody else can get it. */
    method TryAcquire(i: nat) returns (leased: Option<nat>)
      requires Valid() && Enabled(c, Snapshot(), Poll(i))
      modifies this
      ensures Valid() && history == old(history) + [Poll(i)]
      ensures leased.None? <==> old(available) == []
      ensures leased.Some? ==> old(available) == [leased.value] + available && !Owned(old(Snapshot()), leased.value)
                               && leased.value !in available && callers == old(callers)[i := Holding(leased.value)]
      ensures leased.None? ==> available == [] && callers == old(callers)[i := Leaving]
    {
      ghost var before := Snapshot();
      InvAlways(c, history);
      if available != [] {
        FrontIsFree(c, before);
        leased := Some(available[0]);
        callers := callers[i := Holding(available[0])];
        available := available[1..];
      } else {
        leased := None;
        callers := callers[i := Leaving];
      }
      Log(before, Poll(i));
    }

    method Register(i: nat)
      requires Valid() && Enabled(c, Snapshot(), Action.Register(i))
      modifies this
      ensures Valid() && history == old(history) + [Action.Register(i)] && available == old(available)
      ensures old(permit) ==> !permit && waiters == old(waiters) && callers == old(callers)[i := Woken]
      ensures !old(permit) ==> !permit && waiters == old(waiters) + [i] && callers == old(callers)[i := Waiting]
    {
      ghost var before := Snapshot();
      if permit {
        permit := false;
        callers := callers[i := Woken];
      } else {
        waiters := waiters + [i];
        callers := callers[i := Waiting];
      }
      Log(before, Action.Register(i));
    }

    /** The start of `QueueLease::release`, or `drop` of an unreleased lease. */
    method LetGo(i: nat)
      requires Valid() && Enabled(c, Snapshot(), Action.LetGo(i))
      modifies this
      ensures Valid() && history == old(history) + [Action.LetGo(i)] && available == old(available)
      ensures permit == old(permit) && waiters == old(waiters)
      ensures old(callers[i]).Holding? && callers == old(callers)[i := Releasing(old(callers[i]).qnum)]
    {
      ghost var before := Snapshot();
      callers := callers[i := Releasing(callers[i].qnum)];
      Log(before, Action.LetGo(i));
    }

    method NotifyOne()
      requires forall k | 0 <= k < |waiters| :: waiters[k] < |callers|
      modifies this`waiters, this`permit, this`callers
      ensures Snapshot() == Notify(old(Snapshot()))
    {
      if waiters == [] {
        permit := true;
      } else {
        callers := callers[waiters[0] := Woken];
        waiters := waiters[1..];
      }
    }

    /** `release_qnum`: the number always goes to the back of the deque. */
    method ReleaseQnum(i: nat)
      requires Valid() && Enabled(c, Snapshot(), PushBack(i))
      modifies this
      ensures Valid() && history == old(history) + [PushBack(i)]
      ensures available == old(available) + [old(callers[i].qnum)]
      ensures waiters == if old(waiters) == [] then [] else old(waiters)[1..]
      ensures permit == (old(permit) || old(waiters) == [])
      ensures forall k | 0 <= k < |callers| ::
                callers[k] == if k == i then Served
                              else if old(waiters) != [] && k == old(waiters)[0] then Woken else old(callers)[k]
    {
      ghost var before := Snapshot();
      InvAlways(c, history);
      GuardNeverFires(c, before, i);
      var qnum := callers[i].qnum;
      callers := callers[i := Served];
      if qnum !in available {
        available := available + [qnum];
        NotifyOne();
      }
      Log(before, PushBack(i));
    }
  }
}
