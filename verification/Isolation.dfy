/** The static isolation scheme of src/isolation.rs: one queue number and, in fwmark mode, one
    packet mark per worker, in the source's sixteen- and thirty-two-bit arithmetic. */
module Isolation {
  import opened Types

  const U16: nat := 0x1_0000
  const U32: nat := 0x1_0000_0000

  datatype IsolationMode = SourcePort | Fwmark

  datatype Assignment = Assignment(workerId: nat, qnum: nat, fwmark: Option<nat>)

  /** `mark_base.saturating_add(worker_id as u32 + 1)`, the cast and the increment wrapping. */
  function WorkerFwmark(markBase: nat, workerId: nat): nat {
    Min(markBase + (workerId + 1) % U32, U32 - 1)
  }

  /** `isolation.queue_base + worker_id as u16`, wrapping. */
  function WorkerQnum(queueBase: nat, workerId: nat): nat {
    (queueBase + workerId) % U16
  }

  function AssignmentOf(mode: IsolationMode, queueBase: nat, markBase: nat, w: nat): Assignment {
    Assignment(w, WorkerQnum(queueBase, w), if mode.Fwmark? then Some(WorkerFwmark(markBase, w)) else None)
  }

  function GenerateAssignments(workers: nat, mode: IsolationMode, queueBase: nat, markBase: nat)
    : (r: seq<Assignment>)
    ensures |r| == workers
    ensures forall w | 0 <= w < workers :: r[w].workerId == w && (r[w].fwmark.Some? <==> mode.Fwmark?)
  {
    seq(workers, (w: int) => if 0 <= w then AssignmentOf(mode, queueBase, markBase, w) else Assignment(0, 0, None))
  }

  /** The assignments worker by worker: with the validated bounds, number and mark count up from their
      bases, marks one ahead, and only fwmark mode has marks. */
  lemma AssignmentsCountUp(workers: nat, mode: IsolationMode, queueBase: nat, markBase: nat, w: nat)
    requires w < workers && queueBase + workers - 1 <= 65535 && markBase + workers <= 0xFFFF_FFFF
    ensures GenerateAssignments(workers, mode, queueBase, markBase)[w]
         == Assignment(w, queueBase + w, if mode == Fwmark then Some(markBase + w + 1) else None)
  {
  }

  ghost predicate DistinctQnums(assignments: seq<Assignment>) {
    forall u, v | 0 <= u < v < |assignments| :: assignments[u].qnum != assignments[v].qnum
  }

  ghost predicate DistinctMarks(assignments: seq<Assignment>) {
    forall u, v | 0 <= u < v < |assignments| :: assignments[u].fwmark != assignments[v].fwmark
  }

  /** Workers share no queue number exactly while there are no more workers than numbers. */
  lemma QnumsDistinctIff(workers: nat, mode: IsolationMode, queueBase: nat, markBase: nat)
    ensures DistinctQnums(GenerateAssignments(workers, mode, queueBase, markBase)) <==> workers <= U16
  {
    var a := GenerateAssignments(workers, mode, queueBase, markBase);
    if workers > U16 {
      SameQnumIff(queueBase, 0, U16);
      assert a[0].qnum == a[U16].qnum;
    } else {
      forall u, v | 0 <= u < v < workers ensures a[u].qnum != a[v].qnum {
        SameQnumIff(queueBase, u, v);
      }
    }
  }

  lemma SameQnumIff(queueBase: nat, u: nat, v: nat)
    requires u < v <= u + U16
    ensures WorkerQnum(queueBase, u) == WorkerQnum(queueBase, v) <==> v == u + U16
  {
  }

  /** The bound that configuration validation enforces is the exact condition for the numbers to
      be `queue_base`, `queue_base + 1`, … without wrapping. */
  lemma QnumsConsecutiveIff(workers: nat, mode: IsolationMode, queueBase: nat, markBase: nat)
    requires workers > 0
    ensures (forall w | 0 <= w < workers ::
               GenerateAssignments(workers, mode, queueBase, markBase)[w].qnum == queueBase + w)
            <==> queueBase + workers - 1 <= U16 - 1
  {
    var a := GenerateAssignments(workers, mode, queueBase, markBase);
    assert a[workers - 1].qnum == WorkerQnum(queueBase, workers - 1) < U16;
    if queueBase + workers - 1 <= U16 - 1 {
      forall w | 0 <= w < workers ensures a[w].qnum == queueBase + w {
        assert queueBase + w < U16;
      }
    }
  }

  /** In fwmark mode the marks saturate, so they are distinct exactly when at most the last one
      reaches the ceiling. */
  lemma MarksDistinctIff(workers: nat, queueBase: nat, markBase: nat)
    requires markBase < U32 && workers < U32
    ensures DistinctMarks(GenerateAssignments(workers, Fwmark, queueBase, markBase))
            <==> workers <= 1 || markBase + workers <= U32 - 1
  {
    var a := GenerateAssignments(workers, Fwmark, queueBase, markBase);
    assert forall w | 0 <= w < workers :: a[w].fwmark == Some(Min(markBase + w + 1, U32 - 1));
    if workers > 1 && markBase + workers > U32 - 1 {
      assert a[workers - 2].fwmark == a[workers - 1].fwmark;
    }
  }

  // ---------------------------------------------------------------- the overlap check

  /** What `validate_isolation` compares in fwmark mode: only the last worker's mark. */
  predicate PassesOverlapCheck(workers: nat, markBase: nat, desyncMark: nat) {
    WorkerFwmark(markBase, if workers > 0 then workers - 1 else 0) != desyncMark
  }

  ghost predicate Overlaps(workers: nat, markBase: nat, desyncMark: nat) {
    exists w | 0 <= w < workers :: WorkerFwmark(markBase, w) == desyncMark
  }

  /** A worker carries the desync mark exactly when the mark lies in the saturated range. */
  lemma OverlapsIff(workers: nat, markBase: nat, desyncMark: nat)
    requires 0 < workers < U32 && markBase < U32 && desyncMark < U32
    ensures Overlaps(workers, markBase, desyncMark)
            <==> markBase < desyncMark <= markBase + workers || markBase == desyncMark == U32 - 1
  {
    assert forall w | 0 <= w < workers :: WorkerFwmark(markBase, w) == Min(markBase + w + 1, U32 - 1);
    if markBase < desyncMark <= markBase + workers {
      assert WorkerFwmark(markBase, desyncMark - markBase - 1) == desyncMark;
    } else if markBase == desyncMark == U32 - 1 {
      assert WorkerFwmark(markBase, 0) == desyncMark;
    }
  }

  /** What a run can still meet after the check. The check sees the `checked` workers of the
      configuration; the run has `run` of them, as the command line may override the count. An
      overlap is accepted exactly when the desync mark lies in the saturated range of the run and
      is not the mark of the last checked worker. */
  lemma OverlapAcceptedIff(checked: nat, run: nat, markBase: nat, desyncMark: nat)
    requires 0 < checked < U32 && 0 < run < U32 && markBase < U32 && desyncMark < U32
    ensures PassesOverlapCheck(checked, markBase, desyncMark) && Overlaps(run, markBase, desyncMark)
            <==> && (markBase < desyncMark <= markBase + run || markBase == desyncMark == U32 - 1)
                 && desyncMark != Min(markBase + checked, U32 - 1)
  {
    OverlapsIff(run, markBase, desyncMark);
  }

  /** When the run has the checked count, the accepted marks are those strictly inside the range. */
  lemma OverlapCheckMissesInterior(workers: nat, markBase: nat, desyncMark: nat)
    requires 0 < workers < U32 && markBase < U32 && desyncMark < U32
    ensures PassesOverlapCheck(workers, markBase, desyncMark) && Overlaps(workers, markBase, desyncMark)
            <==> markBase < desyncMark < Min(markBase + workers, U32 - 1)
  {
    OverlapAcceptedIff(workers, workers, markBase, desyncMark);
  }

  /** The check catches every overlap of a run, whatever the desync mark, only for one worker or for
      marks that all saturate. */
  lemma CheckSoundIff(checked: nat, run: nat, markBase: nat)
    requires 0 < checked < U32 && 0 < run < U32 && markBase < U32
    ensures (forall d: nat | d < U32 && PassesOverlapCheck(checked, markBase, d) :: !Overlaps(run, markBase, d))
            <==> (checked == 1 && run == 1) || markBase >= U32 - 2
  {
    forall d: nat | d < U32 ensures Overlaps(run, markBase, d) <==> markBase < d <= markBase + run || markBase == d == U32 - 1 {
      OverlapsIff(run, markBase, d);
    }
    if markBase < U32 - 2 {
      var first, second := markBase + 1, markBase + 2;
      assert Overlaps(run, markBase, first) && PassesOverlapCheck(checked, markBase, first) == (checked != 1);
      assert run > 1 && checked == 1 ==> Overlaps(run, markBase, second) && PassesOverlapCheck(checked, markBase, second);
    }
  }

  lemma InteriorOverlapIsAccepted()
    ensures PassesOverlapCheck(4, 0x2000_0000, 0x2000_0002) && Overlaps(4, 0x2000_0000, 0x2000_0002)
  {
    OverlapCheckMissesInterior(4, 0x2000_0000, 0x2000_0002);
  }

  /** A mark beyond the checked range is accepted when the command line asks for more workers. */
  lemma OverriddenOverlapIsAccepted()
    ensures PassesOverlapCheck(4, 0x2000_0000, 0x2000_0006) && Overlaps(8, 0x2000_0000, 0x2000_0006)
  {
    OverlapAcceptedIff(4, 8, 0x2000_0000, 0x2000_0006);
  }
}
