/** What the columns of a rollup row mean (cmd/projector/rollup.go), state by state and result by result. */
module RollupColumns {
  import opened Source
  import opened Calendar
  import opened Intervals
  import opened TrackerSpec
  import opened Frames
  import opened Replica
  import opened Rollups
  import opened Additivity
  import opened RollupEmitters
  import opened StateHistory
  import Buffers
  import Spans
  import Writers
  import EmitOrder
  import RunRollups

  // ---------------------------------------------------------------------------
  // Time columns
  // ---------------------------------------------------------------------------

  /** The milliseconds of the window that a span in this state covers. */
  ghost function MillisIn(spans: seq<OutSpan>, state: string, lo: int, hi: int): set<int> {
    set ms | lo <= ms < hi && InStateAt(spans, state, ms)
  }

  ghost predicate ElsewhereAt(spans: seq<OutSpan>, ms: int) {
    exists k :: 0 <= k < |spans| && spans[k].enteredAtMS <= ms < spans[k].exitedAtMS
                && spans[k].state != "AutoCycle" && spans[k].state != "Error" && spans[k].state != "Maintenance"
  }

  /** The milliseconds that a span in none of the three states with a column of their own covers. */
  ghost function MillisElse(spans: seq<OutSpan>, lo: int, hi: int): set<int> {
    set ms | lo <= ms < hi && ElsewhereAt(spans, ms)
  }

  /** The four columns count milliseconds: of AutoCycle, of Error, of Maintenance, and of every other state. */
  ghost predicate CountsStates(o: Occupancy, spans: seq<OutSpan>, lo: int, hi: int) {
    && o.run == |MillisIn(spans, "AutoCycle", lo, hi)| && o.errored == |MillisIn(spans, "Error", lo, hi)|
    && o.maintenance == |MillisIn(spans, "Maintenance", lo, hi)| && o.idle == |MillisElse(spans, lo, hi)|
  }

  lemma ColumnNames(spans: seq<OutSpan>, lo: int, hi: int)
    ensures Instants(spans, RunTime, lo, hi) == MillisIn(spans, "AutoCycle", lo, hi)
    ensures Instants(spans, ErrorTime, lo, hi) == MillisIn(spans, "Error", lo, hi)
    ensures Instants(spans, MaintenanceTime, lo, hi) == MillisIn(spans, "Maintenance", lo, hi)
    ensures Instants(spans, IdleTime, lo, hi) == MillisElse(spans, lo, hi)
  {
  }

  lemma OccupancyByState(spans: seq<OutSpan>, lo: int, hi: int, o: Occupancy)
    requires Apart(spans) && forall c :: Value(o, c) == Occupied(spans, c, lo, hi)
    ensures CountsStates(o, spans, lo, hi)
  {
    hide Occupied, Instants, MillisIn, MillisElse, Apart;
    ColumnNames(spans, lo, hi);
    OccupiedCountsInstants(spans, RunTime, lo, hi);
    OccupiedCountsInstants(spans, ErrorTime, lo, hi);
    OccupiedCountsInstants(spans, MaintenanceTime, lo, hi);
    OccupiedCountsInstants(spans, IdleTime, lo, hi);
    assert Value(o, RunTime) == o.run && Value(o, ErrorTime) == o.errored && Value(o, MaintenanceTime) == o.maintenance
           && Value(o, IdleTime) == o.idle;
  }

  /** Over tables whose spans do not overlap, each time column of an emitted row is the number of milliseconds of its
      bucket that a span in the column's state covers; Manual, HomeIdle and unknown states count as idle. */
  lemma RowCountsStates(g: Grain, t: Tables, b: int, ts: string)
    requires Apart(SpanRows(t.spans))
    ensures CountsStates(RowOf(g, t, b, ts).occupancy, SpanRows(t.spans), b,
                         b + if g == Hour then 3_600_000 else 86_400_000)
  {
    hide Occupied, SpanRows, Apart, AggregateCycles, FaultColumn, DateUTC, CountsStates;
    OccupancyByState(SpanRows(t.spans), b, b + Width(g), RowOf(g, t, b, ts).occupancy);
  }

  /** So it is for the replica of every run, on both paths. */
  lemma RunRowsCountStates(cfg: Settings, start: int, inputs: seq<Input>, closeAt: int, g: Grain, b: int, ts: string)
    requires TimeOrdered(start, inputs) && Now(start, inputs) <= closeAt
    ensures var t := Writers.WriteIntervals(EmitOrder.EMPTY, WholeRun(cfg, inputs, closeAt).closed).tables;
            CountsStates(RowOf(g, t, b, ts).occupancy, SpanRows(t.spans), b,
                         b + if g == Hour then 3_600_000 else 86_400_000)
  {
    hide WholeRun, TimeOrdered, Writers.WriteIntervals, RowOf, Apart, CountsStates;
    var ivs := WholeRun(cfg, inputs, closeAt).closed;
    var t := Writers.WriteIntervals(EmitOrder.EMPTY, ivs).tables;
    Spans.WholeRunSpans(cfg, start, inputs, closeAt);
    RunRollups.SpansWritten(EmitOrder.EMPTY, ivs);
    var spans := Buffers.Flat(Spans.SpansOf, ivs);
    assert RunRollups.RowsOf(t.spans) == spans;
    RunRollups.ApartInAnyOrder(spans, spans);
    assert SpanRows(t.spans) == RunRollups.RowsOf(t.spans);
    RowCountsStates(g, t, b, ts);
  }

  // ---------------------------------------------------------------------------
  // Counts
  // ---------------------------------------------------------------------------

  /** The positions of the production cycles that started in the window and have one of the results. */
  ghost function Orders(cycles: seq<CycleRow>, results: set<Result>, lo: int, hi: int): set<nat> {
    set k: nat | k < |cycles| && cycles[k].isProduction && lo <= cycles[k].startedMS < hi && cycles[k].result in results
  }

  const ANY: set<Result> := {Completed, FaultedRecoverable, FaultedNonRecoverable, Aborted, Idle, Maintenance, Manual,
                             Result.Error}

  lemma AnyResult(r: Result)
    ensures r in ANY
  {
    match r { case Completed => case _ => }
  }

  lemma {:induction false} SumCounts(cycles: seq<CycleRow>, weight: CycleRow -> int, results: set<Result>, lo: int,
                                     hi: int)
    requires forall c: CycleRow :: weight(c) == if c.isProduction && c.result in results then 1 else 0
    ensures WindowSum(cycles, CycleStart, weight, lo, hi) == |Orders(cycles, results, lo, hi)|
  {
    if cycles == [] {
      assert Orders(cycles, results, lo, hi) == {};
    } else {
      hide Orders;
      var front, c := Front(cycles), Last(cycles);
      SumCounts(front, weight, results, lo, hi);
      OrdersMore(front, c, results, lo, hi);
      assert cycles == front + [c];
    }
  }

  lemma OrdersMore(front: seq<CycleRow>, c: CycleRow, results: set<Result>, lo: int, hi: int)
    ensures |Orders(front + [c], results, lo, hi)|
         == |Orders(front, results, lo, hi)|
            + if c.isProduction && lo <= c.startedMS < hi && c.result in results then 1 else 0
  {
    var cycles := front + [c];
    var one: set<nat> := if c.isProduction && lo <= c.startedMS < hi && c.result in results then {|front|} else {};
    assert Orders(cycles, results, lo, hi) == Orders(front, results, lo, hi) + one;
  }

  /** Orders are counted in the bucket they started in, by their results; the day row has no column for the started
      ones. */
  lemma RowCountsOrders(g: Grain, t: Tables, b: int, ts: string)
    ensures var r, hi := RowOf(g, t, b, ts), b + if g == Hour then 3_600_000 else 86_400_000;
            && r.started == (if g == Hour then Some(|Orders(t.cycles, ANY, b, hi)|) else None)
            && r.cycleCount == |Orders(t.cycles, ANY, b, hi)|
            && r.completed == |Orders(t.cycles, {Completed}, b, hi)|
            && r.faulted == |Orders(t.cycles, {FaultedRecoverable, FaultedNonRecoverable}, b, hi)|
  {
    hide Orders, WindowSum, OccupancyIn, FaultColumn, DateUTC;
    var hi := b + Width(g);
    forall c: CycleRow ensures c.result in ANY {
      AnyResult(c.result);
    }
    SumCounts(t.cycles, Started, ANY, b, hi);
    SumCounts(t.cycles, CompletedOne, {Completed}, b, hi);
    SumCounts(t.cycles, FaultedOne, {FaultedRecoverable, FaultedNonRecoverable}, b, hi);
  }

  ghost function FaultsRaisedIn(faults: seq<Stored<OutFault>>, lo: int, hi: int): set<nat> {
    set k: nat | k < |faults| && lo <= faults[k].row.raisedAtMS < hi
  }

  lemma {:induction false} SumCountsFaults(faults: seq<Stored<OutFault>>, lo: int, hi: int)
    ensures FaultCount(faults, lo, hi) == |FaultsRaisedIn(faults, lo, hi)|
  {
    if faults == [] {
      assert FaultsRaisedIn(faults, lo, hi) == {};
    } else {
      var front, f := Front(faults), Last(faults);
      SumCountsFaults(front, lo, hi);
      var one: set<nat> := if lo <= f.row.raisedAtMS < hi then {|front|} else {};
      assert FaultsRaisedIn(faults, lo, hi) == FaultsRaisedIn(front, lo, hi) + one;
    }
  }

  /** For faults that carry the date they were raised on, both grains count the faults raised in the bucket. */
  lemma RowCountsFaults(g: Grain, t: Tables, b: int, ts: string)
    requires g == Day ==> Dated(t.faults) && b % 86_400_000 == 0 && FourDigitYear(b)
    ensures RowOf(g, t, b, ts).faultCount
         == |FaultsRaisedIn(t.faults, b, b + if g == Hour then 3_600_000 else 86_400_000)|
  {
    hide FaultsRaisedIn, FaultCount, FaultCountOn, AggregateCycles, OccupancyIn, DateUTC, Dated;
    SumCountsFaults(t.faults, b, b + Width(g));
    if g == Day {
      DateIsWindow(t.faults, b);
    }
  }

  /** One cycle more adds its time to the cycle time, and its glasses to the glasses if it was completed. */
  lemma RowAddsUpCycles(g: Grain, t: Tables, c: CycleRow, b: int, ts: string)
    ensures var hi := b + if g == Hour then 3_600_000 else 86_400_000;
            var r, s := RowOf(g, t, b, ts), RowOf(g, t.(cycles := t.cycles + [c]), b, ts);
            var counts := c.isProduction && b <= c.startedMS < hi;
            && s.cycleMS == r.cycleMS + (if counts then c.durationMS else 0)
            && s.glasses == r.glasses + (if counts && c.result == Completed then c.glassCount.GetOr(0) else 0)
            && (t.cycles == [] ==> r.cycleMS == 0 && r.glasses == 0)
  {
    hide OccupancyIn, FaultColumn, DateUTC;
    assert Front(t.cycles + [c]) == t.cycles;
  }

  // ---------------------------------------------------------------------------
  // Where history starts
  // ---------------------------------------------------------------------------

  /** No finished cycle, span, fault or dwell starts before the first bucket. */
  lemma FirstBucketCoversAll(g: Grain, t: Tables)
    requires forall k | 0 <= k < |Starts(t)| :: Starts(t)[k] >= 0
    ensures var f := FirstBucket(g, t);
            && (f.Some? <==> t.cycles != [] || t.spans != [] || t.faults != [] || t.dwells != [])
            && (f.Some? ==>
                  && (forall k | 0 <= k < |t.cycles| :: f.value <= t.cycles[k].startedMS)
                  && (forall k | 0 <= k < |t.spans| :: f.value <= t.spans[k].row.enteredAtMS)
                  && (forall k | 0 <= k < |t.faults| :: f.value <= t.faults[k].row.raisedAtMS)
                  && (forall k | 0 <= k < |t.dwells| :: f.value <= t.dwells[k].row.startedAtMS))
  {
    hide FirstBucket, Starts;
    FirstBucketIsGood(g, t);
    StartsOfAll(t);
  }

  lemma StartsOfAll(t: Tables)
    ensures |Starts(t)| == |t.cycles| + |t.spans| + |t.faults| + |t.dwells|
    ensures forall k | 0 <= k < |t.cycles| :: Starts(t)[k] == t.cycles[k].startedMS
    ensures var n := |t.cycles|; forall k | 0 <= k < |t.spans| :: Starts(t)[n + k] == t.spans[k].row.enteredAtMS
    ensures var n := |t.cycles| + |t.spans|;
            forall k | 0 <= k < |t.faults| :: Starts(t)[n + k] == t.faults[k].row.raisedAtMS
    ensures var n := |t.cycles| + |t.spans| + |t.faults|;
            forall k | 0 <= k < |t.dwells| :: Starts(t)[n + k] == t.dwells[k].row.startedAtMS
  {
  }
}
