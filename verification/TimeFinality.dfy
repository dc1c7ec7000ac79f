/** When the four time columns of an emitted hour row are final (cmd/projector/rollup.go, cmd/projector/tracker.go). */
module TimeFinality {
  import opened Source
  import opened Intervals
  import opened TrackerSpec
  import opened Frames
  import opened Replica
  import opened Writers
  import opened Rollups
  import opened Additivity
  import opened Finality
  import Calendar

  // ---------------------------------------------------------------------------
  // Clipped sums
  // ---------------------------------------------------------------------------

  lemma {:induction false} OccupiedJoins(a: seq<OutSpan>, b: seq<OutSpan>, c: Column, lo: int, hi: int)
    ensures Occupied(a + b, c, lo, hi) == Occupied(a, c, lo, hi) + Occupied(b, c, lo, hi)
  {
    hide ColumnOf, OverlapMS;
    if b == [] {
      assert a + b == a;
    } else {
      assert Front(a + b) == a + Front(b);
      OccupiedJoins(a, Front(b), c, lo, hi);
    }
  }

  lemma {:induction false} NeverNegative(s: seq<OutSpan>, c: Column, lo: int, hi: int)
    ensures Occupied(s, c, lo, hi) >= 0
  {
    hide ColumnOf;
    if s != [] {
      NeverNegative(Front(s), c, lo, hi);
    }
  }

  lemma OccupiedOne(s: OutSpan, c: Column, lo: int, hi: int)
    ensures Occupied([s], c, lo, hi) ==
            if ColumnOf(s.state) == c then OverlapMS(s.enteredAtMS, s.exitedAtMS, lo, hi) else 0
  {
    hide ColumnOf;
    assert Front([s]) == [];
  }

  /** The column's part of what an interval buffers. */
  function Buffered(t: State, c: Column, lo: int, hi: int): int {
    if t.current.Some? then Occupied(t.current.value.stateDurations, c, lo, hi) else 0
  }

  /** The open span counts for the column and began before an instant. */
  predicate OpenBefore(t: State, c: Column, hi: int) {
    t.openState.Some? && ColumnOf(t.openState.value.state) == c && t.openState.value.enteredMS < hi
  }

  /** The column's time in the window is not all stored: a span that meets the window is still open, or waits in the
      open interval. */
  predicate UnsettledTime(t: State, c: Column, lo: int, hi: int) {
    OpenBefore(t, c, hi) || Buffered(t, c, lo, hi) > 0
  }

  // ---------------------------------------------------------------------------
  // Nothing more for the window
  // ---------------------------------------------------------------------------

  ghost predicate Quiet(t: State, c: Column, lo: int, hi: int) {
    !OpenBefore(t, c, hi) && Buffered(t, c, lo, hi) == 0
    && forall k | 0 <= k < |t.closed| :: Occupied(t.closed[k].stateDurations, c, lo, hi) == 0
  }

  lemma CloseSpanAdds(t: State, atMS: int, reason: string, c: Column, lo: int, hi: int)
    requires t.current.Some? && hi <= atMS && lo < hi
    ensures var r := CloseStateSpan(t, atMS, reason);
            && Buffered(r, c, lo, hi) >= Buffered(t, c, lo, hi)
            && (Buffered(r, c, lo, hi) > Buffered(t, c, lo, hi) <==> OpenBefore(t, c, hi))
            && !OpenBefore(r, c, hi)
  {
    hide ColumnOf;
    var r := CloseStateSpan(t, atMS, reason);
    if r != t {
      var row := Last(r.current.value.stateDurations);
      OccupiedJoins(t.current.value.stateDurations, [row], c, lo, hi);
      OccupiedOne(row, c, lo, hi);
    }
  }

  predicate SameSpans(t: State, r: State) {
    && r.openState == t.openState && r.current.Some? == t.current.Some?
    && (t.current.Some? ==> r.current.value.stateDurations == t.current.value.stateDurations)
  }

  /** Closing files the open span with the interval; both are gone from the state. */
  lemma CloseAdds(t: State, atMS: int, forced: Option<Result>, c: Column, lo: int, hi: int)
    requires t.current.Some? && hi <= atMS && lo < hi
    ensures var r := CloseInterval(t, atMS, forced);
            && r.finished != [] && !OpenBefore(r, c, hi)
            && var more := Occupied(Last(r.finished).stateDurations, c, lo, hi);
               more >= Buffered(t, c, lo, hi) && (more > Buffered(t, c, lo, hi) <==> OpenBefore(t, c, hi))
  {
    hide CloseOpenDwells, CloseStateSpan, Occupied, ColumnOf, Sealed;
    var t1 := CloseOpenDwells(t, atMS);
    var t2 := CloseStateSpan(t1, atMS, "interval_end");
    CloseSpanAdds(t1, atMS, "interval_end", c, lo, hi);
    SealedSpans(t2.current.value, atMS, forced);
  }

  lemma SealedSpans(iv: Interval, atMS: int, forced: Option<Result>)
    ensures Sealed(iv, atMS, forced).stateDurations == iv.stateDurations
  {
  }

  lemma CloseQuiet(t: State, atMS: int, forced: Option<Result>, c: Column, lo: int, hi: int)
    requires Quiet(t, c, lo, hi) && hi <= atMS && lo < hi
    ensures Quiet(CloseInterval(t, atMS, forced), c, lo, hi)
  {
    hide CloseInterval, Occupied, OpenBefore, SameRows, SameTally;
    CloseFrame(t, atMS, forced);
    if t.current.Some? {
      CloseAdds(t, atMS, forced, c, lo, hi);
    }
  }

  lemma RecordQuiet(cfg: Settings, t: State, i: Input, c: Column, lo: int, hi: int)
    requires t.current.Some? && Quiet(t, c, lo, hi) && hi <= AtMS(i) && lo < hi
    ensures Quiet(Record(cfg, t, i), c, lo, hi)
  {
    hide Occupied, ColumnOf;
    if i.Apply? && i.row.EventRow? {
      EventQuiet(cfg, t, i.row.event, AtMS(i), c, lo, hi);
    } else {
      OthersSameSpans(cfg, t, i);
    }
  }

  lemma EventQuiet(cfg: Settings, t: State, e: FsmEvent, atMS: int, c: Column, lo: int, hi: int)
    requires t.current.Some? && Quiet(t, c, lo, hi) && hi <= atMS && lo < hi
    ensures Quiet(RecordEvent(cfg, t, e, atMS), c, lo, hi)
  {
    hide TrackStateSpan, TrackDwell, Occupied, ColumnOf;
    var t1 := t.(current := Some(CountIn(t.current.value, e)));
    TrackQuiet(t1, e, atMS, c, lo, hi);
  }

  lemma TrackQuiet(t: State, e: FsmEvent, atMS: int, c: Column, lo: int, hi: int)
    requires t.current.Some? && Quiet(t, c, lo, hi) && hi <= atMS && lo < hi
    ensures Quiet(TrackStateSpan(t, e, atMS), c, lo, hi)
  {
    hide Occupied, ColumnOf, CloseStateSpan;
    CloseSpanAdds(t, atMS, e.kind, c, lo, hi);
  }

  lemma OthersSameSpans(cfg: Settings, t: State, i: Input)
    requires t.current.Some? && !(i.Apply? && i.row.EventRow?)
    ensures SameSpans(t, Record(cfg, t, i)) && Record(cfg, t, i).closed == t.closed
  {
    hide LedgerFaultKey, StepRunFaultKey, RecordLedgerFault, ApplyDoorSignals, StepRunEmits, StepRunFaultCounts,
      StepRunDwell;
  }

  lemma StepQuiet(cfg: Settings, t: State, i: Input, c: Column, lo: int, hi: int)
    requires Quiet(t, c, lo, hi) && lo < hi <= AtMS(i) && !IsStepRun(i)
    ensures Quiet(Step(cfg, t, i), c, lo, hi)
  {
    hide CloseInterval, EnsureInterval, Record, VerdictOf, SynthKey, OpenBefore;
    EnsureShape(cfg, t, KeyOf(i), StateOf(t, i), AtMS(i));
    var forced := if Overdue(cfg, t, AtMS(i)) then Some(ForcedResult(t.current.value)) else None;
    CloseQuiet(t, AtMS(i), forced, c, lo, hi);
    var t1 := Opened(cfg, t, i);
    assert Quiet(t1, c, lo, hi) by { OpenSpanOnly(t1, CloseInterval(t, AtMS(i), forced), c, hi); }
    RecordQuiet(cfg, t1, i, c, lo, hi);
    CloseQuiet(Record(cfg, t1, i), AtMS(i), VerdictOf(cfg, t1, i), c, lo, hi);
  }

  lemma OpenSpanOnly(t: State, r: State, c: Column, hi: int)
    ensures t.openState == r.openState ==> (OpenBefore(t, c, hi) <==> OpenBefore(r, c, hi))
  {
  }

  lemma {:induction false} RunQuiet(cfg: Settings, t: State, now: int, inputs: seq<Input>, c: Column, lo: int, hi: int)
    requires Quiet(t, c, lo, hi) && lo < hi <= now && BasePath(now, inputs)
    ensures Quiet(Run(cfg, t, inputs), c, lo, hi)
  {
    hide Step, Quiet;
    if inputs != [] {
      TimeOrderedFront(now, inputs);
      RunQuiet(cfg, t, now, Front(inputs), c, lo, hi);
      StepQuiet(cfg, Run(cfg, t, Front(inputs)), Last(inputs), c, lo, hi);
    }
  }

  lemma LaterQuiet(cfg: Settings, t: State, now: int, inputs: seq<Input>, closeAt: int, c: Column, lo: int, hi: int)
    requires Quiet(t, c, lo, hi) && lo < hi <= now && BasePath(now, inputs) && Now(now, inputs) <= closeAt
    ensures forall k | 0 <= k < |LaterIntervals(cfg, t, inputs, closeAt)| ::
              Occupied(LaterIntervals(cfg, t, inputs, closeAt)[k].stateDurations, c, lo, hi) == 0
  {
    hide Run, CloseInterval, Occupied, OpenBefore;
    RunQuiet(cfg, t, now, inputs, c, lo, hi);
    var s := Run(cfg, t, inputs);
    NowIsLater(now, inputs);
    CloseQuiet(s, if FlushAt(s, closeAt) < closeAt then closeAt else FlushAt(s, closeAt), FlushResult(s), c, lo, hi);
  }

  lemma NowIsLater(now: int, inputs: seq<Input>)
    requires TimeOrdered(now, inputs)
    ensures now <= Now(now, inputs)
  {
  }

  // ---------------------------------------------------------------------------
  // Main result
  // ---------------------------------------------------------------------------

  lemma SpansOfOne(d: Copy, iv: Interval, c: Column, lo: int, hi: int)
    ensures Occupied(SpanRows(WriteInterval(d, iv).tables.spans), c, lo, hi)
         == Occupied(SpanRows(d.tables.spans), c, lo, hi) + Occupied(iv.stateDurations, c, lo, hi)
  {
    hide UpsertCycle, InsertFaults, HighTS, SetMark, SetMarks, Guarded, Calendar.EventTS, Calendar.DateUTC, Occupied;
    var more := Mapped(StoreSpan, iv.stateDurations);
    assert WriteInterval(d, iv).tables.spans == d.tables.spans + more;
    assert SpanRows(d.tables.spans + more) == SpanRows(d.tables.spans) + iv.stateDurations;
    OccupiedJoins(SpanRows(d.tables.spans), iv.stateDurations, c, lo, hi);
  }

  lemma {:induction false} QuietWrites(d: Copy, ivs: seq<Interval>, c: Column, lo: int, hi: int)
    requires forall k | 0 <= k < |ivs| :: Occupied(ivs[k].stateDurations, c, lo, hi) == 0
    ensures Occupied(SpanRows(WriteIntervals(d, ivs).tables.spans), c, lo, hi)
         == Occupied(SpanRows(d.tables.spans), c, lo, hi)
  {
    hide WriteInterval, Occupied, SpanRows;
    if ivs != [] {
      QuietWrites(d, Front(ivs), c, lo, hi);
      SpansOfOne(WriteIntervals(d, Front(ivs)), Last(ivs), c, lo, hi);
    }
  }

  /** With an interval open, flushing at once shows the unsettled time. */
  lemma FlushShows(cfg: Settings, d: Copy, t: State, now: int, c: Column, lo: int, hi: int)
    requires t.current.Some? && UnsettledTime(t, c, lo, hi) && t.closed == [] && lo < hi <= now
    ensures Occupied(SpanRows(WriteIntervals(d, LaterIntervals(cfg, t, [], now)).tables.spans), c, lo, hi)
          > Occupied(SpanRows(d.tables.spans), c, lo, hi)
  {
    hide WriteInterval, Occupied, SpanRows, LaterIntervals, CloseInterval, SameRows, SameTally, OpenBefore;
    var ivs := LaterIntervals(cfg, t, [], now);
    FlushedAtOnce(cfg, t, now);
    var at := FlushAt(t, now);
    CloseFrame(t, at, FlushResult(t));
    CloseAdds(t, at, FlushResult(t), c, lo, hi);
    NeverNegative(t.current.value.stateDurations, c, lo, hi);
    assert Front(ivs) == [] && WriteIntervals(d, []) == d;
    SpansOfOne(d, ivs[0], c, lo, hi);
  }

  function Anything(now: int): Input {
    Apply(ToggleRow(Toggle(1, now * 1_000_000, "", 0, 0, "", None, "", "")))
  }

  /** Between intervals a toggle opens one and leaves the open span as it is. */
  lemma ToggleOpens(cfg: Settings, t: State, now: int)
    requires t.current.None? && t.closed == []
    ensures var s := Run(cfg, t, [Anything(now)]);
            s.current.Some? && s.closed == [] && s.openState == t.openState
    ensures BasePath(now, [Anything(now)]) && Now(now, [Anything(now)]) == now
  {
    hide CloseInterval, EnsureInterval, SynthKey;
    var i := Anything(now);
    assert AtMS(i) == now;
    assert Front([i]) == [] && Last([i]) == i;
    RunUnfold(cfg, t, [i]);
    EnsureShape(cfg, t, "", "", now);
    CloseFrame(t, now, None);
  }

  lemma UnsettledTimeShows(cfg: Settings, d: Copy, t: State, now: int, c: Column, lo: int, hi: int)
    requires UnsettledTime(t, c, lo, hi) && t.closed == [] && lo < hi <= now
    ensures exists inputs | BasePath(now, inputs) && Now(now, inputs) <= now ::
              !TimeFinalAgainst(cfg, d, t, inputs, now, c, lo, hi)
  {
    hide Occupied, SpanRows, WriteIntervals, LaterIntervals, OpenBefore, Run;
    if t.current.Some? {
      FlushShows(cfg, d, t, now, c, lo, hi);
      assert BasePath(now, []) && Now(now, []) <= now;
      assert !TimeFinalAgainst(cfg, d, t, [], now, c, lo, hi);
    } else {
      var one := [Anything(now)];
      var s := Run(cfg, t, one);
      ToggleOpens(cfg, t, now);
      assert UnsettledTime(s, c, lo, hi) by {
        OpenSpanOnly(t, s, c, hi);
      }
      FlushShows(cfg, d, s, now, c, lo, hi);
      assert LaterIntervals(cfg, s, [], now) == LaterIntervals(cfg, t, one, now) by {
        SameFlush(cfg, t, one, now);
      }
      assert !TimeFinalAgainst(cfg, d, t, one, now, c, lo, hi);
    }
  }

  lemma SameFlush(cfg: Settings, t: State, inputs: seq<Input>, now: int)
    ensures LaterIntervals(cfg, Run(cfg, t, inputs), [], now) == LaterIntervals(cfg, t, inputs, now)
  {
    hide FlushOpen, Step;
  }

  ghost predicate TimeFinalAgainst(cfg: Settings, d: Copy, t: State, inputs: seq<Input>, closeAt: int, c: Column,
                                   lo: int, hi: int) {
    Occupied(SpanRows(WriteIntervals(d, LaterIntervals(cfg, t, inputs, closeAt)).tables.spans), c, lo, hi)
    == Occupied(SpanRows(d.tables.spans), c, lo, hi)
  }

  /** On the base path, with everything closed handed over, each time column of a bucket that has ended equals a recount
      after every continuation of the run exactly when no span of the column that meets the bucket is still open or
      waits in the open interval. */
  lemma TimeFinalExactly(cfg: Settings, d: Copy, t: State, now: int, c: Column, lo: int, hi: int)
    requires lo < hi <= now && t.closed == []
    ensures (forall inputs, closeAt | BasePath(now, inputs) && Now(now, inputs) <= closeAt ::
               TimeFinalAgainst(cfg, d, t, inputs, closeAt, c, lo, hi))
       <==> !UnsettledTime(t, c, lo, hi)
  {
    hide Run, FlushOpen, Occupied, SpanRows, WriteIntervals, LaterIntervals, OpenBefore, BasePath;
    if UnsettledTime(t, c, lo, hi) {
      UnsettledTimeShows(cfg, d, t, now, c, lo, hi);
    } else {
      forall inputs, closeAt | BasePath(now, inputs) && Now(now, inputs) <= closeAt
        ensures TimeFinalAgainst(cfg, d, t, inputs, closeAt, c, lo, hi)
      {
        if t.current.Some? {
          NeverNegative(t.current.value.stateDurations, c, lo, hi);
        }
        LaterQuiet(cfg, t, now, inputs, closeAt, c, lo, hi);
        QuietWrites(d, LaterIntervals(cfg, t, inputs, closeAt), c, lo, hi);
      }
    }
  }
}
