/** Where the last interval ends (cmd/projector/main.go): on the machine's timeline, whatever the clock says when the
    projector shuts down. */
module Shutdown {
  import opened Source
  import opened Sorting
  import opened Merge
  import opened Drain
  import opened Intervals
  import opened TrackerSpec
  import opened Frames
  import opened Pipeline
  import opened Replica
  import opened Writers
  import opened EmitOrder

  /** The open interval starts and the queued ones end by an instant. */
  ghost predicate EndsBy(t: State, hi: int) {
    && (t.current.Some? ==> t.current.value.startedMS <= hi)
    && forall k | 0 <= k < |t.closed| :: t.closed[k].endedMS <= hi
  }

  lemma CloseEnds(t: State, atMS: int, forced: Option<Result>, hi: int)
    requires EndsBy(t, hi) && atMS <= hi
    ensures EndsBy(CloseInterval(t, atMS, forced), hi)
  {
    hide CloseInterval, SameRows, SameTally;
    CloseFrame(t, atMS, forced);
  }

  lemma StepEnds(cfg: Settings, t: State, i: Input, hi: int)
    requires EndsBy(t, hi) && AtMS(i) <= hi && OpenAtMS(i) <= hi
    ensures EndsBy(Step(cfg, t, i), hi)
  {
    hide CloseInterval, EnsureInterval, Record, VerdictOf, SynthKey;
    EnsureShape(cfg, t, KeyOf(i), StateOf(t, i), OpenAtMS(i));
    var forced := if Overdue(cfg, t, OpenAtMS(i)) then Some(ForcedResult(t.current.value)) else None;
    CloseEnds(t, OpenAtMS(i), forced, hi);
    var t1 := Opened(cfg, t, i);
    assert EndsBy(t1, hi);
    CloseEnds(Record(cfg, t1, i), AtMS(i), VerdictOf(cfg, t1, i), hi);
  }

  lemma {:induction false} RunEnds(cfg: Settings, t: State, inputs: seq<Input>, hi: int)
    requires EndsBy(t, hi) && forall k | 0 <= k < |inputs| :: AtMS(inputs[k]) <= hi && OpenAtMS(inputs[k]) <= hi
    ensures EndsBy(Run(cfg, t, inputs), hi)
  {
    hide Step, EndsBy;
    if inputs != [] {
      RunEnds(cfg, t, Front(inputs), hi);
      StepEnds(cfg, Run(cfg, t, Front(inputs)), Last(inputs), hi);
    }
  }

  // ---------------------------------------------------------------------------
  // Ticks
  // ---------------------------------------------------------------------------

  /** Step runs do not end before they start. */
  predicate Forward(r: Row) {
    r.StepRunRow? ==> Millis(r.stepRun.started) <= Millis(r.stepRun.ended)
  }

  ghost predicate RowsBy(rows: seq<Row>, hi: int) {
    forall k | 0 <= k < |rows| :: Forward(rows[k]) && Millis(At(rows[k])) <= hi
  }

  ghost predicate AllEndBy(ivs: seq<Interval>, hi: int) {
    forall k | 0 <= k < |ivs| :: ivs[k].endedMS <= hi
  }

  lemma HandoverEnds(ivs: seq<Interval>, hi: int)
    requires AllEndBy(ivs, hi)
    ensures AllEndBy(Handover(ivs), hi)
  {
    hide SortBy;
    SortBySorts(EndsBefore, ivs);
    var s := Handover(ivs);
    forall k | 0 <= k < |s| ensures s[k].endedMS <= hi {
      assert s[k] in multiset(s) && s[k] in multiset(ivs);
    }
  }

  lemma InputsBy(rows: seq<Row>, hi: int)
    requires RowsBy(rows, hi)
    ensures forall k | 0 <= k < |rows| :: AtMS(Inputs(rows)[k]) <= hi && OpenAtMS(Inputs(rows)[k]) <= hi
  {
  }

  lemma OneTickEnds(cfg: Settings, t: State, rows: seq<Row>, hi: int)
    requires EndsBy(t, hi) && RowsBy(rows, hi)
    ensures var t1 := Run(cfg, t, Inputs(rows)); EndsBy(HandedOver(t1), hi) && AllEndBy(Handover(t1.closed), hi)
  {
    hide Run, Handover;
    InputsBy(rows, hi);
    RunEnds(cfg, t, Inputs(rows), hi);
    HandoverEnds(Run(cfg, t, Inputs(rows)).closed, hi);
  }

  lemma RowsBySplit(a: seq<Row>, b: seq<Row>, hi: int)
    requires RowsBy(a + b, hi)
    ensures RowsBy(a, hi) && RowsBy(b, hi)
  {
    assert forall k | 0 <= k < |a| :: a[k] == (a + b)[k];
    assert forall k | 0 <= k < |b| :: b[k] == (a + b)[|a| + k];
  }

  lemma EndsJoin(a: seq<Interval>, b: seq<Interval>, hi: int)
    requires AllEndBy(a, hi) && AllEndBy(b, hi)
    ensures AllEndBy(a + b, hi)
  {
  }

  lemma {:induction false} TickingEnds(cfg: Settings, ts: seq<seq<Row>>, pos: seq<nat>, batch: nat, t: State, hi: int)
    requires ValidTables(ts) && ValidPos(ts, pos) && batch > 0 && EndsBy(t, hi) && t.closed == []
    requires RowsBy(Drained(ts, pos, batch), hi)
    ensures var (some, end) := Ticking(cfg, ts, pos, batch, t);
            AllEndBy(some, hi) && EndsBy(end, hi) && end.closed == []
    decreases Left(ts, pos)
  {
    hide Run, Applied, NextPos, Handover, EndsBy, RowsBy, ValidTables;
    if Left(ts, pos) != 0 {
      TickShrinks(ts, pos, batch);
      var now, next := Applied(ts, pos, batch), NextPos(ts, pos, batch);
      var t1 := Run(cfg, t, Inputs(now));
      RowsBySplit(now, Drained(ts, next, batch), hi);
      OneTickEnds(cfg, t, now, hi);
      TickingEnds(cfg, ts, next, batch, HandedOver(t1), hi);
      EndsJoin(Handover(t1.closed), Ticking(cfg, ts, next, batch, HandedOver(t1)).0, hi);
    }
  }

  ghost predicate ForwardSource(ts: seq<seq<Row>>) {
    forall j, k | 0 <= j < |ts| && 0 <= k < |ts[j]| :: Forward(ts[j][k])
  }

  lemma DrainedBy(ts: seq<seq<Row>>, batch: nat)
    requires ValidTables(ts) && batch > 0 && ForwardSource(ts) && Drained(ts, START, batch) != []
    ensures var rows := Drained(ts, START, batch); RowsBy(rows, Millis(At(Last(rows))))
  {
    hide Drained;
    var rows := Drained(ts, START, batch);
    NeverStepsBack(ts, START, batch);
    forall k | 0 <= k < |rows| ensures Forward(rows[k]) && Millis(At(rows[k])) <= Millis(At(Last(rows))) {
      DrainedMembers(ts, START, batch, rows[k]);
    }
  }

  lemma FlushEnds(t: State, closeAt: int)
    requires EndsBy(t, closeAt) && t.closed == []
    ensures AllEndBy(FlushOpen(t, closeAt).closed, closeAt + 1)
  {
    hide CloseInterval;
    CloseFrame(t, FlushAt(t, closeAt), FlushResult(t));
  }

  /** Closed at the instant of the last row, no interval of a drained source ends later than a millisecond after it. */
  lemma FlushedEndsBy(cfg: Settings, ts: seq<seq<Row>>, batch: nat)
    requires ValidTables(ts) && batch > 0 && ForwardSource(ts) && Drained(ts, START, batch) != []
    ensures var last := Millis(At(Last(Drained(ts, START, batch))));
            AllEndBy(Flushed(cfg, ts, batch, last), last + 1)
  {
    hide Drained, Ticking, FlushOpen, Handover, RowsBy;
    var last := Millis(At(Last(Drained(ts, START, batch))));
    DrainedBy(ts, batch);
    TickingEnds(cfg, ts, START, batch, INITIAL, last);
    var (some, end) := Ticking(cfg, ts, START, batch, INITIAL);
    FlushEnds(end, last);
    HandoverEnds(FlushOpen(end, last).closed, last + 1);
  }

  /** The interval that is open at the final flush is always emitted: it ends at the instant, or a millisecond after its
      start, an order as aborted and any other with the result it stands for. */
  lemma LastIntervalIsEmitted(t: State, closeAt: int)
    ensures var f := FlushOpen(t, closeAt);
            if t.current.None? then f == t
            else
              var iv := t.current.value;
              && f.current.None? && f.closed != [] && Front(f.closed) == t.closed
              && var last := Last(f.closed);
              && last.orderKey == iv.orderKey && last.startedMS == iv.startedMS && SameRows(iv, last)
              && last.endedMS == (if iv.startedMS < closeAt then closeAt else iv.startedMS + 1)
              && last.result == (if iv.isProduction then Aborted else iv.result)
  {
    hide CloseInterval, SameRows, SameTally;
    CloseFrame(t, FlushAt(t, closeAt), FlushResult(t));
  }

  // ---------------------------------------------------------------------------
  // The cycles table
  // ---------------------------------------------------------------------------

  ghost predicate CyclesEndBy(cycles: seq<CycleRow>, hi: int) {
    forall k | 0 <= k < |cycles| :: cycles[k].endedMS <= hi
  }

  lemma {:induction false} WrittenEndBy(c: Copy, ivs: seq<Interval>, hi: int)
    requires CyclesEndBy(c.tables.cycles, hi) && AllEndBy(ivs, hi)
    ensures CyclesEndBy(WriteIntervals(c, ivs).tables.cycles, hi)
  {
    hide Guarded, SetMark, SetMarks, UpsertCycle, InsertFaults, HighTS, Mapped;
    if ivs != [] {
      WrittenEndBy(c, Front(ivs), hi);
      var d, iv := WriteIntervals(c, Front(ivs)), Last(ivs);
      assert iv == ivs[|ivs| - 1];
      UpsertTS(d.tables.cycles, CycleOf(iv, Guarded(d.marks, "cycles", iv.endedMS)));
    }
  }

  /** No cycle of the replica ends more than a millisecond after the source's last row. */
  lemma ReplicaEndsOnTheTimeline(cfg: Settings, ts: seq<seq<Row>>, batch: nat)
    requires ValidTables(ts) && batch > 0 && ForwardSource(ts) && Drained(ts, START, batch) != []
    ensures var last := Millis(At(Last(Drained(ts, START, batch))));
            CyclesEndBy(WriteIntervals(EMPTY, Flushed(cfg, ts, batch, last)).tables.cycles, last + 1)
  {
    hide Drained, Flushed, WriteIntervals;
    var last := Millis(At(Last(Drained(ts, START, batch))));
    FlushedEndsBy(cfg, ts, batch);
    WrittenEndBy(EMPTY, Flushed(cfg, ts, batch, last), last + 1);
  }
}
