/** The summary cards above the history and reports tables: total hours, completed shifts
    and the average length of a completed shift. */
module ShiftSummaries {
  import opened Types
  import opened Seqs
  import opened TimeRecords

  datatype ShiftSummary = ShiftSummary(totalHours: real, completedShifts: nat, averageHours: real)

  /** `recs.filter(r => r.checkOutTime).length`: the closed records; the others are open. */
  function CompletedShifts(recs: seq<TimeRecord>): (n: nat)
    ensures n <= |recs|
    ensures n + |Filter(recs, IsOpenPred())| == |recs|
    ensures n == 0 <==> forall i :: 0 <= i < |recs| ==> recs[i].IsOpen()
  {
    var closed := Filter(recs, IsClosedPred());
    FilterComplementCount(recs, IsClosedPred(), IsOpenPred());
    assert closed != [] ==> closed[0] in closed;
    assert closed == [] ==> forall i :: 0 <= i < |recs| ==> recs[i].IsOpen() by {
      if closed == [] {
        forall i | 0 <= i < |recs| ensures recs[i].IsOpen() {
          assert recs[i] in recs;
          assert recs[i] !in closed;
        }
      }
    }
    |closed|
  }

  /** Total hours (open shifts counted up to `now`), completed shifts, and the average over
      completed shifts, 0 when none is complete. */
  function Summarize(recs: seq<TimeRecord>, now: int): (sm: ShiftSummary)
    ensures sm.totalHours == SumHoursWhere(recs, IsClosedPred(), now) + SumHoursWhere(recs, IsOpenPred(), now)
    ensures sm.completedShifts == CompletedShifts(recs)
    ensures sm.completedShifts > 0 ==> sm.averageHours == sm.totalHours / (sm.completedShifts as real)
    ensures sm.completedShifts == 0 ==> sm.averageHours == 0.0
  {
    var total := SumHours(recs, now);
    var completed := CompletedShifts(recs);
    SumSplitsByStatus(recs, now);
    ShiftSummary(total, completed, AverageOrZero(total, completed))
  }

  /** Every record is either complete or open, so the total splits into the two sums. */
  lemma {:induction false} SumSplitsByStatus(recs: seq<TimeRecord>, now: int)
    ensures SumHours(recs, now) == SumHoursWhere(recs, IsClosedPred(), now) + SumHoursWhere(recs, IsOpenPred(), now)
    decreases |recs|
  {
    if |recs| > 0 {
      SumSplitsByStatus(recs[..|recs| - 1], now);
    }
  }
}
