/** When an emitted hour row is final as a whole (cmd/projector/rollup.go, cmd/projector/main.go). */
module HourFinality {
  import opened Source
  import opened Intervals
  import opened TrackerSpec
  import opened Frames
  import opened Pipeline
  import opened Replica
  import opened Writers
  import opened Rollups
  import opened Additivity
  import opened Finality
  import opened FaultFinality
  import opened TimeFinality
  import opened GlassFinality
  import opened RollupEmitters
  import Calendar
  import RunRollups

  /** Something that started, was raised or was held in the hour has not reached the replica yet, or may still be
      changed there. */
  ghost predicate UnsettledHour(cfg: Settings, d: Tables, t: State, now: int, b: int) {
    var e := b + HOUR_MS;
    || Unsettled(d.cycles, t, b, e)
    || Lacking(cfg, d.cycles, t, now, b, e)
    || UnsettledFault(d.faults, t, b, e)
    || AnyUnsettledTime(t, b, e)
  }

  /** The row of the hour, counted again after a continuation of the run, is the row that was emitted. */
  ghost predicate HourFinalAgainst(cfg: Settings, d: Copy, t: State, inputs: seq<Input>, closeAt: int, b: int) {
    RowOf(Hour, WriteIntervals(d, LaterIntervals(cfg, t, inputs, closeAt)).tables, b, "") ==
    RowOf(Hour, d.tables, b, "")
  }

  function CyclesOf(d: Copy): CycleTable {
    CycleTable(d.tables.cycles, d.marks)
  }

  ghost predicate TimesFinalAgainst(cfg: Settings, d: Copy, t: State, inputs: seq<Input>, closeAt: int, lo: int,
                                    hi: int) {
    forall c :: TimeFinalAgainst(cfg, d, t, inputs, closeAt, c, lo, hi)
  }

  ghost predicate ColumnsFinalAgainst(cfg: Settings, d: Copy, t: State, inputs: seq<Input>, closeAt: int, b: int) {
    && FinalAgainst(cfg, CyclesOf(d), t, inputs, closeAt, b, b + HOUR_MS)
    && GlassesFinalAgainst(cfg, CyclesOf(d), t, inputs, closeAt, b, b + HOUR_MS)
    && FaultsFinalAgainst(cfg, d, t, inputs, closeAt, b, b + HOUR_MS)
    && TimesFinalAgainst(cfg, d, t, inputs, closeAt, b, b + HOUR_MS)
  }

  /** The row is the same when each of its columns is. */
  lemma ColumnByColumn(cfg: Settings, d: Copy, t: State, inputs: seq<Input>, closeAt: int, b: int)
    ensures HourFinalAgainst(cfg, d, t, inputs, closeAt, b) <==> ColumnsFinalAgainst(cfg, d, t, inputs, closeAt, b)
  {
    hide LaterIntervals, WriteIntervals, WriteCycles, WindowSum, Calendar.DateUTC, OccupancyIn, TimesFinalAgainst;
    var ivs := LaterIntervals(cfg, t, inputs, closeAt);
    RunRollups.CyclesWritten(d, CyclesOf(d), ivs);
    TimesAreOccupancy(cfg, d, t, inputs, closeAt, b, b + HOUR_MS);
  }

  predicate SameTime(a: seq<Stored<OutSpan>>, b: seq<Stored<OutSpan>>, c: Column, lo: int, hi: int) {
    Occupied(SpanRows(a), c, lo, hi) == Occupied(SpanRows(b), c, lo, hi)
  }

  lemma TimesAreOccupancy(cfg: Settings, d: Copy, t: State, inputs: seq<Input>, closeAt: int, lo: int, hi: int)
    ensures TimesFinalAgainst(cfg, d, t, inputs, closeAt, lo, hi)
       <==> (OccupancyIn(WriteIntervals(d, LaterIntervals(cfg, t, inputs, closeAt)).tables.spans, lo, hi)
             == OccupancyIn(d.tables.spans, lo, hi))
  {
    hide LaterIntervals, WriteIntervals, OccupancyIn, Occupied, SpanRows;
    var later := WriteIntervals(d, LaterIntervals(cfg, t, inputs, closeAt)).tables.spans;
    SameOccupancy(later, d.tables.spans, lo, hi);
    assert forall c :: TimeFinalAgainst(cfg, d, t, inputs, closeAt, c, lo, hi)
                       <==> SameTime(later, d.tables.spans, c, lo, hi);
  }

  lemma SameOccupancy(a: seq<Stored<OutSpan>>, b: seq<Stored<OutSpan>>, lo: int, hi: int)
    ensures OccupancyIn(a, lo, hi) == OccupancyIn(b, lo, hi) <==> forall c :: SameTime(a, b, c, lo, hi)
  {
    hide Occupied, SpanRows;
    forall c ensures SameTime(a, b, c, lo, hi)
                <==> Value(OccupancyIn(a, lo, hi), c) == Value(OccupancyIn(b, lo, hi), c) {
      match c { case RunTime => case ErrorTime => case MaintenanceTime => case IdleTime => }
    }
    assert (forall c :: SameTime(a, b, c, lo, hi)) ==>
             SameTime(a, b, RunTime, lo, hi) && SameTime(a, b, ErrorTime, lo, hi)
             && SameTime(a, b, MaintenanceTime, lo, hi) && SameTime(a, b, IdleTime, lo, hi);
  }

  /** On the base path, with everything closed handed over, the row of an hour that has ended equals a recount after
      every continuation of the run exactly when nothing of the hour is unsettled: no open order that started in it and
      is not stored, no stored cycle of it without its glass count, no buffered fault of it that is not stored, and no
      state span that meets it and is open or buffered. */
  lemma HourRowIsFinalExactly(cfg: Settings, d: Copy, t: State, now: int, b: int)
    requires b + HOUR_MS <= now && t.closed == [] && OpenUndecided(t)
    ensures (forall inputs, closeAt | BasePath(now, inputs) && Now(now, inputs) <= closeAt ::
               HourFinalAgainst(cfg, d, t, inputs, closeAt, b))
       <==> !UnsettledHour(cfg, d.tables, t, now, b)
  {
    hide FinalAgainst, GlassesFinalAgainst, FaultsFinalAgainst, TimesFinalAgainst, HourFinalAgainst, BasePath, Now,
      Unsettled, Lacking, UnsettledFault, AnyUnsettledTime, OpenUndecided, Overdue;
    var e := b + HOUR_MS;
    CountsFinalExactly(cfg, CyclesOf(d), t, now, b, e);
    GlassesFinalExactly(cfg, CyclesOf(d), t, now, b, e);
    FaultsFinalExactly(cfg, d, t, now, b, e);
    TimesFinalExactly(cfg, d, t, now, b, e);
    if UnsettledHour(cfg, d.tables, t, now, b) {
      var inputs, closeAt;
      if Unsettled(d.tables.cycles, t, b, e) {
        inputs, closeAt :| BasePath(now, inputs) && Now(now, inputs) <= closeAt
                           && !FinalAgainst(cfg, CyclesOf(d), t, inputs, closeAt, b, e);
      } else if Lacking(cfg, d.tables.cycles, t, now, b, e) {
        inputs, closeAt :| BasePath(now, inputs) && Now(now, inputs) <= closeAt
                           && !GlassesFinalAgainst(cfg, CyclesOf(d), t, inputs, closeAt, b, e);
      } else if UnsettledFault(d.tables.faults, t, b, e) {
        inputs, closeAt :| BasePath(now, inputs) && Now(now, inputs) <= closeAt
                           && !FaultsFinalAgainst(cfg, d, t, inputs, closeAt, b, e);
      } else {
        inputs, closeAt :| BasePath(now, inputs) && Now(now, inputs) <= closeAt
                           && !TimesFinalAgainst(cfg, d, t, inputs, closeAt, b, e);
      }
      ColumnByColumn(cfg, d, t, inputs, closeAt, b);
      assert !HourFinalAgainst(cfg, d, t, inputs, closeAt, b);
    } else {
      forall inputs, closeAt | BasePath(now, inputs) && Now(now, inputs) <= closeAt
        ensures HourFinalAgainst(cfg, d, t, inputs, closeAt, b)
      {
        ColumnByColumn(cfg, d, t, inputs, closeAt, b);
      }
    }
  }

  ghost predicate AnyUnsettledTime(t: State, lo: int, hi: int) {
    exists c :: UnsettledTime(t, c, lo, hi)
  }

  lemma TimesFinalExactly(cfg: Settings, d: Copy, t: State, now: int, lo: int, hi: int)
    requires lo < hi <= now && t.closed == []
    ensures (forall inputs, closeAt | BasePath(now, inputs) && Now(now, inputs) <= closeAt ::
               TimesFinalAgainst(cfg, d, t, inputs, closeAt, lo, hi))
       <==> !AnyUnsettledTime(t, lo, hi)
  {
    hide TimeFinalAgainst, BasePath, Now, UnsettledTime;
    if AnyUnsettledTime(t, lo, hi) {
      var c :| UnsettledTime(t, c, lo, hi);
      TimeFinalExactly(cfg, d, t, now, c, lo, hi);
      var inputs, closeAt :| BasePath(now, inputs) && Now(now, inputs) <= closeAt
                             && !TimeFinalAgainst(cfg, d, t, inputs, closeAt, c, lo, hi);
      assert !TimesFinalAgainst(cfg, d, t, inputs, closeAt, lo, hi);
    } else {
      forall inputs, closeAt, c | BasePath(now, inputs) && Now(now, inputs) <= closeAt
        ensures TimeFinalAgainst(cfg, d, t, inputs, closeAt, c, lo, hi)
      {
        TimeFinalExactly(cfg, d, t, now, c, lo, hi);
      }
    }
  }

  /** Every state between ticks meets the conditions above. */
  lemma BetweenTicks(cfg: Settings, inputs: seq<Input>)
    ensures var t := HandedOver(Run(cfg, INITIAL, inputs)); t.closed == [] && OpenUndecided(t)
  {
    hide Run;
    RunUndecided(cfg, INITIAL, inputs);
  }

  // ---------------------------------------------------------------------------
  // Orders are not all that can be unsettled
  // ---------------------------------------------------------------------------

  const IDLE_FAULT: Input :=
    Apply(FaultRow(Fault(1, 3_300_000_000_000, "HomeIdle", 0, "DoorOpen", "", "")))

  /** After a fault on an idle machine at 55 minutes, the first hour is not final at its end, with no order open. */
  lemma IdleFaultUnsettlesTheHour(cfg: Settings)
    ensures var t := HandedOver(Run(cfg, INITIAL, [IDLE_FAULT]));
            && BasePath(0, [IDLE_FAULT]) && !Unsettled([], t, 0, HOUR_MS) && UnsettledFault([], t, 0, HOUR_MS)
  {
    hide CloseInterval, EnsureInterval, SynthKey, LedgerFaultKey, RecordLedgerFault;
    assert Front([IDLE_FAULT]) == [] && Last([IDLE_FAULT]) == IDLE_FAULT;
    RunUnfold(cfg, INITIAL, [IDLE_FAULT]);
    EnsureShape(cfg, INITIAL, "", "HomeIdle", 3_300_000);
    CloseFrame(INITIAL, 3_300_000, None);
    var fs := HandedOver(Run(cfg, INITIAL, [IDLE_FAULT])).current.value.faults;
    assert |fs| == 1 && InWindow(fs[0], 0, HOUR_MS) && IsStored([], fs, 0);
  }
}
