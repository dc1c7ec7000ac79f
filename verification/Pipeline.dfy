/** Ticks end to end (cmd/projector/main.go): rows merged, applied, and the finished intervals handed over. */
module Pipeline {
  import opened Sorting
  import opened Source
  import opened Merge
  import opened Drain
  import opened Intervals
  import opened TrackerSpec
  import opened Frames

  predicate EndsBefore(a: Interval, b: Interval) {
    a.endedMS <= b.endedMS
  }

  /** The order in which the closed intervals are handed over. */
  function Handover(closed: seq<Interval>): seq<Interval> {
    SortBy(EndsBefore, closed)
  }

  function Inputs(rows: seq<Row>): seq<Input> {
    seq(|rows|, k requires 0 <= k < |rows| => Apply(rows[k]))
  }

  // ---------------------------------------------------------------------------
  // Handing intervals over does not disturb the tracker
  // ---------------------------------------------------------------------------

  function WithQueue(t: State, q: seq<Interval>): State {
    t.(closed := q)
  }

  /** b is a, reached with the intervals q in front of the queue. */
  ghost predicate Behind(a: State, b: State, q: seq<Interval>) {
    b == WithQueue(a, q + a.closed)
  }

  lemma CloseBehind(a: State, b: State, q: seq<Interval>, atMS: int, forced: Option<Result>)
    requires Behind(a, b, q)
    ensures Behind(CloseInterval(a, atMS, forced), CloseInterval(b, atMS, forced), q)
  {
    hide CloseStateSpan, Sealed;
    CloseDwellsBehind(a, b, q, atMS);
    var a1, b1 := CloseOpenDwells(a, atMS), CloseOpenDwells(b, atMS);
    CloseSpanBehind(a1, b1, q, atMS);
    if a.current.Some? {
      var iv := Sealed(CloseStateSpan(a1, atMS, "interval_end").current.value, atMS, forced);
      assert q + (a.closed + [iv]) == (q + a.closed) + [iv];
    }
  }

  lemma CloseDwellsBehind(a: State, b: State, q: seq<Interval>, atMS: int)
    requires Behind(a, b, q)
    ensures Behind(CloseOpenDwells(a, atMS), CloseOpenDwells(b, atMS), q)
  {
    hide CloseDwell;
    CloseDwellBehind(a, b, q, Crusher, atMS);
    var a1, b1 := CloseDwell(a, Crusher, atMS), CloseDwell(b, Crusher, atMS);
    CloseDwellBehind(a1, b1, q, Main, atMS);
    CloseDwellBehind(CloseDwell(a1, Main, atMS), CloseDwell(b1, Main, atMS), q, Tilter, atMS);
  }

  lemma CloseDwellBehind(a: State, b: State, q: seq<Interval>, lane: Lane, atMS: int)
    requires Behind(a, b, q)
    ensures Behind(CloseDwell(a, lane, atMS), CloseDwell(b, lane, atMS), q)
  {
  }

  lemma CloseSpanBehind(a: State, b: State, q: seq<Interval>, atMS: int)
    requires Behind(a, b, q)
    ensures Behind(CloseStateSpan(a, atMS, "interval_end"), CloseStateSpan(b, atMS, "interval_end"), q)
  {
  }

  lemma OpenBehind(cfg: Settings, a: State, b: State, q: seq<Interval>, i: Input)
    requires Behind(a, b, q)
    ensures Behind(Opened(cfg, a, i), Opened(cfg, b, i), q)
  {
    hide CloseInterval, EnsureInterval, SynthKey;
    EnsureShape(cfg, a, KeyOf(i), StateOf(a, i), OpenAtMS(i));
    EnsureShape(cfg, b, KeyOf(i), StateOf(b, i), OpenAtMS(i));
    var forced := if Overdue(cfg, a, OpenAtMS(i)) then Some(ForcedResult(a.current.value)) else None;
    CloseBehind(a, b, q, OpenAtMS(i), forced);
  }

  lemma EventBehind(cfg: Settings, a: State, b: State, q: seq<Interval>, e: FsmEvent, atMS: int)
    requires Behind(a, b, q) && a.current.Some?
    ensures Behind(RecordEvent(cfg, a, e, atMS), RecordEvent(cfg, b, e, atMS), q)
  {
    hide TrackStateSpan, TrackDwell, CountIn;
    var a1, b1 := a.(current := Some(CountIn(a.current.value, e))), b.(current := Some(CountIn(b.current.value, e)));
    TrackSpanBehind(a1, b1, q, e, atMS);
    var a2, b2 := TrackStateSpan(a1, e, atMS), TrackStateSpan(b1, e, atMS);
    TrackDwellBehind(a2, b2, q, e, atMS);
  }

  lemma TrackSpanBehind(a: State, b: State, q: seq<Interval>, e: FsmEvent, atMS: int)
    requires Behind(a, b, q)
    ensures Behind(TrackStateSpan(a, e, atMS), TrackStateSpan(b, e, atMS), q)
  {
  }

  lemma TrackDwellBehind(a: State, b: State, q: seq<Interval>, e: FsmEvent, atMS: int)
    requires Behind(a, b, q) && a.current.Some?
    ensures Behind(TrackDwell(a, e, atMS), TrackDwell(b, e, atMS), q)
  {
    hide CloseDwell;
    var lane := LaneForState(e.currentState);
    var a1 := if lane in a.openDwells then a.(openDwells := a.openDwells[lane := CountEvent(a.openDwells[lane], e)])
              else a;
    var b1 := if lane in b.openDwells then b.(openDwells := b.openDwells[lane := CountEvent(b.openDwells[lane], e)])
              else b;
    CloseDwellBehind(a1, b1, q, lane, atMS);
  }

  lemma RecordBehind(cfg: Settings, a: State, b: State, q: seq<Interval>, i: Input)
    requires Behind(a, b, q) && a.current.Some?
    ensures Behind(Record(cfg, a, i), Record(cfg, b, i), q)
  {
    hide RecordEvent, RecordFault, RecordStepRun, Behind;
    match i {
      case Config(_, _, _, _) => OtherBehind(cfg, a, b, q, i);
      case Apply(row) =>
        match row {
          case EventRow(e) => EventBehind(cfg, a, b, q, e, AtMS(i));
          case FaultRow(f) => FaultBehind(cfg, a, b, q, f, AtMS(i));
          case StepRunRow(sr) => StepRunBehind(cfg, a, b, q, sr);
          case _ => OtherBehind(cfg, a, b, q, i);
        }
    }
  }

  lemma FaultBehind(cfg: Settings, a: State, b: State, q: seq<Interval>, f: Fault, atMS: int)
    requires Behind(a, b, q) && a.current.Some?
    ensures Behind(RecordFault(cfg, a, f, atMS), RecordFault(cfg, b, f, atMS), q)
  {
    hide LedgerFaultKey, RecordLedgerFault, WithFault;
  }

  lemma StepRunBehind(cfg: Settings, a: State, b: State, q: seq<Interval>, sr: StepRun)
    requires Behind(a, b, q) && a.current.Some?
    ensures Behind(RecordStepRun(cfg, a, sr), RecordStepRun(cfg, b, sr), q)
  {
    hide StepRunFaultKey, StepRunDwell, LedgerCovers, WithFault, WithDwell;
  }

  lemma OtherBehind(cfg: Settings, a: State, b: State, q: seq<Interval>, i: Input)
    requires Behind(a, b, q) && a.current.Some?
    requires i.Apply? ==> i.row.OrderRow? || i.row.ToggleRow?
    ensures Behind(Record(cfg, a, i), Record(cfg, b, i), q)
  {
    hide RecordEvent, RecordFault, RecordStepRun, CountReset;
  }

  lemma StepBehind(cfg: Settings, a: State, b: State, q: seq<Interval>, i: Input)
    requires Behind(a, b, q)
    ensures Behind(Step(cfg, a, i), Step(cfg, b, i), q)
  {
    hide CloseInterval, Opened, Record;
    OpenBehind(cfg, a, b, q, i);
    RecordBehind(cfg, Opened(cfg, a, i), Opened(cfg, b, i), q, i);
    CloseBehind(Record(cfg, Opened(cfg, a, i), i), Record(cfg, Opened(cfg, b, i), i), q, AtMS(i),
                VerdictOf(cfg, Opened(cfg, a, i), i));
  }

  /** What a run does does not depend on the intervals that wait to be handed over; it queues up behind them. */
  lemma {:induction false} RunBehind(cfg: Settings, a: State, b: State, q: seq<Interval>, inputs: seq<Input>)
    requires Behind(a, b, q)
    ensures Behind(Run(cfg, a, inputs), Run(cfg, b, inputs), q)
  {
    hide Step, Behind;
    if inputs != [] {
      RunBehind(cfg, a, b, q, Front(inputs));
      StepBehind(cfg, Run(cfg, a, Front(inputs)), Run(cfg, b, Front(inputs)), q, Last(inputs));
    }
  }

  // ---------------------------------------------------------------------------
  // The queue is in order already
  // ---------------------------------------------------------------------------

  ghost predicate QueueInOrder(t: State, now: int) {
    SortedBy(EndsBefore, t.closed) && forall k | 0 <= k < |t.closed| :: t.closed[k].endedMS <= now
  }

  lemma CloseKeepsQueue(t: State, atMS: int, forced: Option<Result>, now: int)
    requires QueueInOrder(t, now) && now <= atMS
    ensures QueueInOrder(CloseInterval(t, atMS, forced), atMS)
  {
    hide CloseInterval, SameRows, SameTally;
    CloseFrame(t, atMS, forced);
  }

  lemma StepKeepsQueue(cfg: Settings, t: State, i: Input, now: int)
    requires QueueInOrder(t, now) && now <= AtMS(i) && !IsStepRun(i)
    ensures QueueInOrder(Step(cfg, t, i), AtMS(i))
  {
    hide CloseInterval, EnsureInterval, Record, VerdictOf, SynthKey;
    EnsureShape(cfg, t, KeyOf(i), StateOf(t, i), AtMS(i));
    var forced := if Overdue(cfg, t, AtMS(i)) then Some(ForcedResult(t.current.value)) else None;
    CloseKeepsQueue(t, AtMS(i), forced, now);
    var t1 := Opened(cfg, t, i);
    assert QueueInOrder(t1, AtMS(i));
    CloseKeepsQueue(Record(cfg, t1, i), AtMS(i), VerdictOf(cfg, t1, i), AtMS(i));
  }

  lemma {:induction false} RunKeepsQueue(cfg: Settings, t: State, start: int, inputs: seq<Input>)
    requires BasePath(start, inputs) && QueueInOrder(t, start)
    ensures QueueInOrder(Run(cfg, t, inputs), Now(start, inputs))
  {
    hide Step, QueueInOrder;
    if inputs != [] {
      TimeOrderedFront(start, inputs);
      RunKeepsQueue(cfg, t, start, Front(inputs));
      StepKeepsQueue(cfg, Run(cfg, t, Front(inputs)), Last(inputs), Now(start, Front(inputs)));
    }
  }

  // ---------------------------------------------------------------------------
  // Draining
  // ---------------------------------------------------------------------------

  /** Handing over empties the queue. */
  function HandedOver(t: State): State {
    WithQueue(t, [])
  }

  /** Ticks until the source is drained: the intervals handed over, and the state they leave. */
  ghost function Ticking(cfg: Settings, ts: seq<seq<Row>>, pos: seq<nat>, batch: nat, t: State): (seq<Interval>, State)
    requires ValidTables(ts) && ValidPos(ts, pos) && batch > 0
    decreases Left(ts, pos)
  {
    if Left(ts, pos) == 0 then ([], t)
    else
      TickShrinks(ts, pos, batch);
      var t1 := Run(cfg, t, Inputs(Applied(ts, pos, batch)));
      var (more, end) := Ticking(cfg, ts, NextPos(ts, pos, batch), batch, HandedOver(t1));
      (Handover(t1.closed) + more, end)
  }

  /** Everything the ticks and the final flush hand over. */
  ghost function Flushed(cfg: Settings, ts: seq<seq<Row>>, batch: nat, closeAt: int): seq<Interval>
    requires ValidTables(ts) && batch > 0
  {
    var (some, t) := Ticking(cfg, ts, START, batch, INITIAL);
    some + Handover(FlushOpen(t, closeAt).closed)
  }

  lemma InputsAppend(a: seq<Row>, b: seq<Row>)
    ensures Inputs(a + b) == Inputs(a) + Inputs(b)
  {
  }

  ghost predicate RowsInTime(rows: seq<Row>) {
    forall j, k | 0 <= j < k < |rows| :: At(rows[j]) <= At(rows[k])
  }

  /** Rows without step runs, in timestamp order, make a base-path run. */
  lemma RowsAreBasePath(rows: seq<Row>, start: int)
    requires RowsInTime(rows) && forall k | 0 <= k < |rows| :: !rows[k].StepRunRow? && start <= Millis(At(rows[k]))
    ensures BasePath(start, Inputs(rows))
  {
  }

  /** Tick by tick the same intervals are handed over, in the same order, as if all rows were applied in one go. */
  lemma {:induction false} TickingIsRunning(cfg: Settings, ts: seq<seq<Row>>, pos: seq<nat>, batch: nat, t: State,
                                            start: int)
    requires ValidTables(ts) && ValidPos(ts, pos) && batch > 0 && t.closed == []
    requires BasePath(start, Inputs(Drained(ts, pos, batch)))
    ensures var (some, end) := Ticking(cfg, ts, pos, batch, t);
            var all := Run(cfg, t, Inputs(Drained(ts, pos, batch)));
            some == all.closed && end == HandedOver(all)
    decreases Left(ts, pos)
  {
    hide Run, Applied, NextPos, BasePath, Handover;
    if Left(ts, pos) == 0 {
      NoInputs(cfg, t);
    } else {
      TickShrinks(ts, pos, batch);
      var now, later := Applied(ts, pos, batch), Drained(ts, NextPos(ts, pos, batch), batch);
      InputsAppend(now, later);
      BasePathSplits(start, Inputs(now), Inputs(later));
      var t1 := Run(cfg, t, Inputs(now));
      TickingIsRunning(cfg, ts, NextPos(ts, pos, batch), batch, HandedOver(t1), start);
      RunBehind(cfg, HandedOver(t1), t1, t1.closed, Inputs(later));
      RunAppend(cfg, t, Inputs(now), Inputs(later));
      HandoverKeeps(cfg, t, start, Inputs(now));
    }
  }

  lemma NoInputs(cfg: Settings, t: State)
    ensures Inputs([]) == [] && Run(cfg, t, []) == t
  {
  }

  lemma BasePathSplits(start: int, a: seq<Input>, b: seq<Input>)
    requires BasePath(start, a + b)
    ensures BasePath(start, a) && BasePath(start, b)
  {
    assert forall k | 0 <= k < |a| :: a[k] == (a + b)[k];
    assert forall k | 0 <= k < |b| :: b[k] == (a + b)[|a| + k];
  }

  lemma HandoverKeeps(cfg: Settings, t: State, start: int, inputs: seq<Input>)
    requires BasePath(start, inputs) && t.closed == []
    ensures Handover(Run(cfg, t, inputs).closed) == Run(cfg, t, inputs).closed
  {
    hide Run, BasePath;
    RunKeepsQueue(cfg, t, start, inputs);
    SortBySorted(EndsBefore, Run(cfg, t, inputs).closed);
  }

  lemma FlushBehind(t: State, closeAt: int)
    ensures FlushOpen(t, closeAt).closed == t.closed + Handover(FlushOpen(HandedOver(t), closeAt).closed)
  {
    hide CloseInterval, Handover;
    if t.current.Some? {
      var at, forced := FlushAt(t, closeAt), FlushResult(t);
      CloseBehind(HandedOver(t), t, t.closed, at, forced);
      CloseFrame(HandedOver(t), at, forced);
      FewInOrder(CloseInterval(HandedOver(t), at, forced).closed);
    } else {
      FewInOrder([]);
    }
  }

  lemma FewInOrder(q: seq<Interval>)
    requires |q| <= 1
    ensures Handover(q) == q
  {
    SortBySorted(EndsBefore, q);
  }

  /** The instant of the first row. */
  function FirstMS(rows: seq<Row>): int {
    if rows == [] then 0 else Millis(At(rows[0]))
  }

  /** A drained source without step runs makes a base-path run. */
  lemma DrainedIsBasePath(ts: seq<seq<Row>>, batch: nat)
    requires ValidTables(ts) && batch > 0 && ts[2] == []
    ensures var rows := Drained(ts, START, batch); BasePath(FirstMS(rows), Inputs(rows))
  {
    hide Drained, BasePath;
    var rows := Drained(ts, START, batch);
    NeverStepsBack(ts, START, batch);
    forall k | 0 <= k < |rows| ensures !rows[k].StepRunRow? {
      DrainedMembers(ts, START, batch, rows[k]);
    }
    assert forall k | 0 <= k < |rows| :: FirstMS(rows) <= Millis(At(rows[k]));
    RowsAreBasePath(rows, FirstMS(rows));
  }

  /** Drained tick by tick, a source without step runs hands over the intervals of one run over its drained rows. */
  lemma FlushedIsWholeRun(cfg: Settings, ts: seq<seq<Row>>, batch: nat, closeAt: int)
    requires ValidTables(ts) && batch > 0 && ts[2] == []
    ensures Flushed(cfg, ts, batch, closeAt) == WholeRun(cfg, Inputs(Drained(ts, START, batch)), closeAt).closed
  {
    hide Run, Handover, Drained, FlushOpen, BasePath;
    var rows := Drained(ts, START, batch);
    DrainedIsBasePath(ts, batch);
    TickingIsRunning(cfg, ts, START, batch, INITIAL, FirstMS(rows));
    FlushBehind(Run(cfg, INITIAL, Inputs(rows)), closeAt);
  }

  /** Without step runs and with harmless ties, every batch size hands over the same sequence of intervals: the one
      that sorting all rows once and applying them in one go would. */
  lemma BatchSizeDoesNotShow(cfg: Settings, ts: seq<seq<Row>>, batch: nat, closeAt: int)
    requires ValidTables(ts) && batch > 0 && ts[2] == [] && TiesAreHarmless(ts)
    ensures Flushed(cfg, ts, batch, closeAt) == WholeRun(cfg, Inputs(SortedOnce(ts)), closeAt).closed
  {
    hide Flushed, WholeRun, Drained, SortedOnce;
    FlushedIsWholeRun(cfg, ts, batch, closeAt);
    HarmlessSorts(ts, batch);
  }
}
