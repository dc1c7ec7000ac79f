/** Nothing a run produces starts before its inputs do (cmd/projector/tracker.go), on both paths. */
module Starts {
  import opened Source
  import opened Intervals
  import opened TrackerSpec
  import opened Frames
  import opened Pipeline
  import opened Replica
  import opened Writers
  import opened RollupEmitters
  import Calendar
  import Sorting

  /** The interval, its spans, dwells and faults start at an instant or later. */
  ghost predicate IntervalFrom(iv: Interval, lo: int) {
    && lo <= iv.startedMS
    && (forall k | 0 <= k < |iv.stateDurations| :: lo <= iv.stateDurations[k].enteredAtMS)
    && (forall k | 0 <= k < |iv.stepDwells| :: lo <= iv.stepDwells[k].startedAtMS)
    && (forall k | 0 <= k < |iv.faults| :: lo <= iv.faults[k].raisedAtMS)
  }

  ghost predicate OpenFrom(t: State, lo: int) {
    && (t.openState.Some? ==> lo <= t.openState.value.enteredMS)
    && (forall lane | lane in t.openDwells :: lo <= t.openDwells[lane].startedMS)
    && (t.current.Some? ==> IntervalFrom(t.current.value, lo))
  }

  ghost predicate AllFrom(ivs: seq<Interval>, lo: int) {
    forall k | 0 <= k < |ivs| :: IntervalFrom(ivs[k], lo)
  }

  lemma CloseDwellFrom(t: State, lane: Lane, atMS: int, lo: int)
    requires OpenFrom(t, lo)
    ensures OpenFrom(CloseDwell(t, lane, atMS), lo)
  {
  }

  lemma CloseDwellsFrom(t: State, atMS: int, lo: int)
    requires OpenFrom(t, lo)
    ensures OpenFrom(CloseOpenDwells(t, atMS), lo)
  {
    hide CloseDwell, OpenFrom;
    CloseDwellFrom(t, Crusher, atMS, lo);
    CloseDwellFrom(CloseDwell(t, Crusher, atMS), Main, atMS, lo);
    CloseDwellFrom(CloseDwell(CloseDwell(t, Crusher, atMS), Main, atMS), Tilter, atMS, lo);
  }

  lemma CloseSpanFrom(t: State, atMS: int, reason: string, lo: int)
    requires OpenFrom(t, lo)
    ensures OpenFrom(CloseStateSpan(t, atMS, reason), lo)
  {
  }

  lemma SealFrom(iv: Interval, atMS: int, forced: Option<Result>, lo: int)
    requires IntervalFrom(iv, lo)
    ensures IntervalFrom(Sealed(iv, atMS, forced), lo)
  {
  }

  lemma CloseFrom(t: State, atMS: int, forced: Option<Result>, lo: int)
    requires OpenFrom(t, lo) && AllFrom(t.closed, lo)
    ensures var c := CloseInterval(t, atMS, forced); OpenFrom(c, lo) && AllFrom(c.closed, lo)
  {
    hide CloseOpenDwells, CloseStateSpan, Sealed, IntervalFrom;
    if t.current.Some? {
      CloseDwellsFrom(t, atMS, lo);
      var t1 := CloseOpenDwells(t, atMS);
      CloseSpanFrom(t1, atMS, "interval_end", lo);
      SealFrom(CloseStateSpan(t1, atMS, "interval_end").current.value, atMS, forced, lo);
    }
  }

  lemma TrackSpanFrom(t: State, e: FsmEvent, atMS: int, lo: int)
    requires OpenFrom(t, lo) && lo <= atMS
    ensures OpenFrom(TrackStateSpan(t, e, atMS), lo)
  {
    hide CloseStateSpan, IntervalFrom;
    CloseSpanFrom(t, atMS, e.kind, lo);
  }

  lemma TrackDwellFrom(t: State, e: FsmEvent, atMS: int, lo: int)
    requires t.current.Some? && OpenFrom(t, lo) && lo <= atMS
    ensures OpenFrom(TrackDwell(t, e, atMS), lo)
  {
    hide CloseDwell, IntervalFrom;
    var lane := LaneForState(e.currentState);
    var t1 := if lane in t.openDwells then t.(openDwells := t.openDwells[lane := CountEvent(t.openDwells[lane], e)])
              else t;
    CloseDwellFrom(t1, lane, atMS, lo);
  }

  lemma EventFrom(cfg: Settings, t: State, e: FsmEvent, atMS: int, lo: int)
    requires t.current.Some? && OpenFrom(t, lo) && lo <= atMS
    ensures OpenFrom(RecordEvent(cfg, t, e, atMS), lo)
  {
    hide TrackStateSpan, TrackDwell;
    var t1 := t.(current := Some(CountIn(t.current.value, e)));
    TrackSpanFrom(t1, e, atMS, lo);
    TrackDwellFrom(TrackStateSpan(t1, e, atMS), e, atMS, lo);
  }

  lemma FaultFrom(cfg: Settings, t: State, f: Fault, atMS: int, lo: int)
    requires t.current.Some? && OpenFrom(t, lo) && lo <= atMS
    ensures OpenFrom(RecordFault(cfg, t, f, atMS), lo)
  {
    hide LedgerFaultKey, RecordLedgerFault;
  }

  lemma StepRunFrom(cfg: Settings, t: State, sr: StepRun, lo: int)
    requires t.current.Some? && OpenFrom(t, lo) && lo <= Millis(sr.started) && lo <= Millis(sr.ended)
    ensures OpenFrom(RecordStepRun(cfg, t, sr), lo)
  {
    hide StepRunFaultKey, LedgerCovers;
  }

  lemma OthersFrom(cfg: Settings, t: State, i: Input, lo: int)
    requires t.current.Some? && OpenFrom(t, lo) && (i.Apply? ==> i.row.OrderRow? || i.row.ToggleRow?)
    ensures OpenFrom(Record(cfg, t, i), lo)
  {
  }

  lemma RecordFrom(cfg: Settings, t: State, i: Input, lo: int)
    requires t.current.Some? && OpenFrom(t, lo) && lo <= OpenAtMS(i) && lo <= AtMS(i)
    ensures OpenFrom(Record(cfg, t, i), lo)
  {
    hide RecordEvent, RecordFault, RecordStepRun, OpenFrom;
    match i {
      case Config(_, _, _, _) => OthersFrom(cfg, t, i, lo);
      case Apply(row) =>
        match row {
          case EventRow(e) => EventFrom(cfg, t, e, AtMS(i), lo);
          case FaultRow(f) => FaultFrom(cfg, t, f, AtMS(i), lo);
          case StepRunRow(sr) => StepRunFrom(cfg, t, sr, lo);
          case _ => OthersFrom(cfg, t, i, lo);
        }
    }
  }

  lemma StepFrom(cfg: Settings, t: State, i: Input, lo: int)
    requires OpenFrom(t, lo) && AllFrom(t.closed, lo) && lo <= OpenAtMS(i) && lo <= AtMS(i)
    ensures var s := Step(cfg, t, i); OpenFrom(s, lo) && AllFrom(s.closed, lo)
  {
    hide CloseInterval, EnsureInterval, Record, VerdictOf, SynthKey, AllFrom;
    EnsureShape(cfg, t, KeyOf(i), StateOf(t, i), OpenAtMS(i));
    var forced := if Overdue(cfg, t, OpenAtMS(i)) then Some(ForcedResult(t.current.value)) else None;
    CloseFrom(t, OpenAtMS(i), forced, lo);
    var t1 := Opened(cfg, t, i);
    assert OpenFrom(t1, lo);
    RecordFrom(cfg, t1, i, lo);
    CloseFrom(Record(cfg, t1, i), AtMS(i), VerdictOf(cfg, t1, i), lo);
  }

  ghost predicate InputsFrom(inputs: seq<Input>, lo: int) {
    forall k | 0 <= k < |inputs| :: lo <= OpenAtMS(inputs[k]) && lo <= AtMS(inputs[k])
  }

  /** What a run holds and has closed starts no earlier than its inputs do. */
  lemma {:induction false} RunFrom(cfg: Settings, t: State, inputs: seq<Input>, lo: int)
    requires OpenFrom(t, lo) && AllFrom(t.closed, lo) && InputsFrom(inputs, lo)
    ensures var s := Run(cfg, t, inputs); OpenFrom(s, lo) && AllFrom(s.closed, lo)
  {
    hide Step, OpenFrom, AllFrom;
    if inputs != [] {
      RunFrom(cfg, t, Front(inputs), lo);
      StepFrom(cfg, Run(cfg, t, Front(inputs)), Last(inputs), lo);
    }
  }

  // ---------------------------------------------------------------------------
  // Tables
  // ---------------------------------------------------------------------------

  ghost predicate TablesFrom(t: Tables, lo: int) {
    && (forall k | 0 <= k < |t.cycles| :: lo <= t.cycles[k].startedMS)
    && (forall k | 0 <= k < |t.spans| :: lo <= t.spans[k].row.enteredAtMS)
    && (forall k | 0 <= k < |t.faults| :: lo <= t.faults[k].row.raisedAtMS)
    && (forall k | 0 <= k < |t.dwells| :: lo <= t.dwells[k].row.startedAtMS)
  }

  lemma {:induction false} UpsertFrom(cycles: seq<CycleRow>, c: CycleRow, lo: int)
    requires lo <= c.startedMS && forall k | 0 <= k < |cycles| :: lo <= cycles[k].startedMS
    ensures forall k | 0 <= k < |UpsertCycle(cycles, c)| :: lo <= UpsertCycle(cycles, c)[k].startedMS
  {
    if cycles != [] {
      UpsertFrom(cycles[1..], c, lo);
    }
  }

  lemma {:induction false} InsertFrom(faults: seq<Stored<OutFault>>, more: seq<OutFault>, lo: int)
    requires forall k | 0 <= k < |faults| :: lo <= faults[k].row.raisedAtMS
    requires forall k | 0 <= k < |more| :: lo <= more[k].raisedAtMS
    ensures forall k | 0 <= k < |InsertFaults(faults, more)| :: lo <= InsertFaults(faults, more)[k].row.raisedAtMS
  {
    hide HasFault, Calendar.EventTS, Calendar.DateUTC;
    if more != [] {
      InsertFrom(faults, Front(more), lo);
    }
  }

  lemma WriteFrom(c: Copy, iv: Interval, lo: int)
    requires TablesFrom(c.tables, lo) && IntervalFrom(iv, lo)
    ensures TablesFrom(WriteInterval(c, iv).tables, lo)
  {
    hide Mapped, UpsertCycle, InsertFaults, HighTS, SetMark, SetMarks, Guarded, Calendar.EventTS, Calendar.DateUTC;
    UpsertFrom(c.tables.cycles, CycleOf(iv, Guarded(c.marks, "cycles", iv.endedMS)), lo);
    InsertFrom(c.tables.faults, iv.faults, lo);
  }

  lemma {:induction false} WritesFrom(c: Copy, ivs: seq<Interval>, lo: int)
    requires TablesFrom(c.tables, lo) && AllFrom(ivs, lo)
    ensures TablesFrom(WriteIntervals(c, ivs).tables, lo)
  {
    hide TablesFrom, IntervalFrom, WriteInterval;
    if ivs != [] {
      WritesFrom(c, Front(ivs), lo);
      WriteFrom(WriteIntervals(c, Front(ivs)), Last(ivs), lo);
    }
  }

  lemma HandoverFrom(ivs: seq<Interval>, lo: int)
    requires AllFrom(ivs, lo)
    ensures AllFrom(Handover(ivs), lo)
  {
    hide IntervalFrom;
    Sorting.SortBySorts(EndsBefore, ivs);
    forall k | 0 <= k < |Handover(ivs)| ensures IntervalFrom(Handover(ivs)[k], lo) {
      assert Handover(ivs)[k] in multiset(Handover(ivs));
      assert Handover(ivs)[k] in multiset(ivs);
    }
  }

  /** The instants the first bucket is sought among. */
  lemma StartsFrom(t: Tables, lo: int)
    requires TablesFrom(t, lo)
    ensures forall k | 0 <= k < |RollupEmitters.Starts(t)| :: RollupEmitters.Starts(t)[k] >= lo
  {
  }
}
