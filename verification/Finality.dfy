/** When an emitted hour row is final (cmd/projector/rollup.go, cmd/projector/main.go, cmd/projector/writer.go). */
module Finality {
  import opened Source
  import opened Intervals
  import opened TrackerSpec
  import opened Frames
  import opened Replica
  import opened Additivity

  // ---------------------------------------------------------------------------
  // Cycles written after the row was emitted
  // ---------------------------------------------------------------------------

  datatype CycleTable = CycleTable(rows: seq<CycleRow>, marks: Marks)

  function WriteCycle(c: CycleTable, iv: Interval): CycleTable {
    var ts := Guarded(c.marks, "cycles", iv.endedMS);
    CycleTable(UpsertCycle(c.rows, CycleOf(iv, ts)), SetMark(c.marks, "cycles", ts))
  }

  function WriteCycles(c: CycleTable, ivs: seq<Interval>): CycleTable {
    if ivs == [] then c else WriteCycle(WriteCycles(c, Front(ivs)), Last(ivs))
  }

  ghost predicate HasOrder(rows: seq<CycleRow>, id: string) {
    exists k | 0 <= k < |rows| :: rows[k].orderID == id
  }

  /** The counts of the hour row, glasses aside: a late order row may still fill those. */
  predicate SameCounts(a: CycleAgg, b: CycleAgg) {
    a.started == b.started && a.completed == b.completed && a.faulted == b.faulted && a.cycleMS == b.cycleMS
    && a.cycleCount == b.cycleCount
  }

  function Shifted(a: CycleAgg, c: CycleRow, lo: int, hi: int): CycleAgg {
    if !(lo <= c.startedMS < hi) then a
    else a.(started := a.started + Started(c), completed := a.completed + CompletedOne(c),
            faulted := a.faulted + FaultedOne(c), cycleMS := a.cycleMS + CycleTime(c),
            cycleCount := a.cycleCount + Started(c))
  }

  lemma {:induction false} SumHead(s: seq<CycleRow>, c: CycleRow, w: CycleRow -> int, lo: int, hi: int)
    ensures WindowSum([c] + s, CycleStart, w, lo, hi)
         == (if lo <= c.startedMS < hi then w(c) else 0) + WindowSum(s, CycleStart, w, lo, hi)
  {
    if s == [] {
      assert Front([c]) == [] && [c] + s == [c];
    } else {
      SumHead(Front(s), c, w, lo, hi);
      assert Front([c] + s) == [c] + Front(s) && Last([c] + s) == Last(s);
    }
  }

  lemma AggregateHead(s: seq<CycleRow>, c: CycleRow, lo: int, hi: int)
    ensures SameCounts(AggregateCycles([c] + s, lo, hi), Shifted(AggregateCycles(s, lo, hi), c, lo, hi))
  {
    hide WindowSum;
    SumHead(s, c, Started, lo, hi);
    SumHead(s, c, CompletedOne, lo, hi);
    SumHead(s, c, FaultedOne, lo, hi);
    SumHead(s, c, CycleTime, lo, hi);
  }

  /** Writing a cycle changes the counts only when its order is new, it is a production cycle, and it started in the
      window. */
  lemma {:induction false} UpsertCounts(rows: seq<CycleRow>, c: CycleRow, lo: int, hi: int)
    ensures var a, b := AggregateCycles(rows, lo, hi), AggregateCycles(UpsertCycle(rows, c), lo, hi);
            SameCounts(b, if HasOrder(rows, c.orderID) then a else Shifted(a, c, lo, hi))
    ensures forall id :: HasOrder(UpsertCycle(rows, c), id) <==> HasOrder(rows, id) || id == c.orderID
  {
    hide AggregateCycles;
    if rows == [] {
      NoOrders();
      AggregateHead([], c, lo, hi);
      assert [c] + [] == [c];
      OneOrder([], c);
    } else {
      var h, tail := rows[0], rows[1..];
      assert rows == [h] + tail;
      OneOrder(tail, h);
      AggregateHead(tail, h, lo, hi);
      if h.orderID == c.orderID {
        var filled := h.(recipeID := FirstOr(h.recipeID, c.recipeID),
                          glassCount := FirstOr(h.glassCount, c.glassCount));
        AggregateHead(tail, filled, lo, hi);
        OneOrder(tail, filled);
      } else {
        UpsertCounts(tail, c, lo, hi);
        AggregateHead(UpsertCycle(tail, c), h, lo, hi);
        OneOrder(UpsertCycle(tail, c), h);
      }
    }
  }

  lemma NoOrders()
    ensures forall id :: !HasOrder([], id)
  {
  }

  lemma OneOrder(s: seq<CycleRow>, c: CycleRow)
    ensures forall id :: HasOrder([c] + s, id) <==> id == c.orderID || HasOrder(s, id)
  {
    var more := [c] + s;
    assert more[0] == c && forall k | 0 <= k < |s| :: more[k + 1] == s[k];
    forall id | HasOrder(s, id) ensures HasOrder(more, id) {
      var k :| 0 <= k < |s| && s[k].orderID == id;
      assert more[k + 1].orderID == id;
    }
  }

  // ---------------------------------------------------------------------------
  // Intervals closed after the row was emitted
  // ---------------------------------------------------------------------------

  /** The interval was open at the time of t, or was opened no earlier than now. */
  predicate Since(t: State, now: int, iv: Interval) {
    now <= iv.startedMS
    || (t.current.Some? && iv.orderKey == t.current.value.orderKey
        && iv.isProduction == t.current.value.isProduction && iv.startedMS == t.current.value.startedMS)
  }

  ghost predicate AllSince(t: State, now: int, s: State) {
    (s.current.Some? ==> Since(t, now, s.current.value)) && forall k | 0 <= k < |s.closed| :: Since(t, now, s.closed[k])
  }

  lemma CloseSince(t: State, now: int, s: State, atMS: int, forced: Option<Result>)
    requires AllSince(t, now, s)
    ensures AllSince(t, now, CloseInterval(s, atMS, forced))
  {
    hide CloseInterval, SameRows, SameTally;
    CloseFrame(s, atMS, forced);
  }

  lemma StepSince(cfg: Settings, t: State, now: int, s: State, i: Input)
    requires AllSince(t, now, s) && now <= AtMS(i) && !IsStepRun(i)
    ensures AllSince(t, now, Step(cfg, s, i))
  {
    hide CloseInterval, EnsureInterval, Record, VerdictOf, SynthKey;
    EnsureShape(cfg, s, KeyOf(i), StateOf(s, i), AtMS(i));
    var forced := if Overdue(cfg, s, AtMS(i)) then Some(ForcedResult(s.current.value)) else None;
    CloseSince(t, now, s, AtMS(i), forced);
    var s1 := Opened(cfg, s, i);
    assert AllSince(t, now, s1);
    CloseSince(t, now, Record(cfg, s1, i), AtMS(i), VerdictOf(cfg, s1, i));
  }

  lemma {:induction false} RunSince(cfg: Settings, t: State, now: int, inputs: seq<Input>)
    requires BasePath(now, inputs) && t.closed == []
    ensures AllSince(t, now, Run(cfg, t, inputs))
  {
    hide Step, Since;
    if inputs == [] {
      NowSince(t, now);
    } else {
      TimeOrderedFront(now, inputs);
      RunSince(cfg, t, now, Front(inputs));
      StepSince(cfg, t, now, Run(cfg, t, Front(inputs)), Last(inputs));
    }
  }

  lemma NowSince(t: State, now: int)
    requires t.closed == []
    ensures AllSince(t, now, t)
  {
  }

  /** The intervals a continuation of the run and its final flush write. */
  ghost function LaterIntervals(cfg: Settings, t: State, inputs: seq<Input>, closeAt: int): seq<Interval> {
    FlushOpen(Run(cfg, t, inputs), closeAt).closed
  }

  lemma LaterSince(cfg: Settings, t: State, now: int, inputs: seq<Input>, closeAt: int)
    requires BasePath(now, inputs) && t.closed == []
    ensures forall k | 0 <= k < |LaterIntervals(cfg, t, inputs, closeAt)| ::
              Since(t, now, LaterIntervals(cfg, t, inputs, closeAt)[k])
  {
    hide Run, CloseInterval, Since;
    RunSince(cfg, t, now, inputs);
    var s := Run(cfg, t, inputs);
    CloseSince(t, now, s, FlushAt(s, closeAt), FlushResult(s));
  }

  /** Flushing at once writes the open interval alone. */
  lemma FlushedAtOnce(cfg: Settings, t: State, now: int)
    requires t.closed == []
    ensures var ivs := LaterIntervals(cfg, t, [], now);
            if t.current.None? then ivs == []
            else |ivs| == 1 && IsSealed(t.current.value, ivs[0], FlushAt(t, now), FlushResult(t))
                 && ivs == CloseInterval(t, FlushAt(t, now), FlushResult(t)).closed
  {
    hide CloseInterval, SameRows, SameTally;
    assert Run(cfg, t, []) == t;
    CloseFrame(t, FlushAt(t, now), FlushResult(t));
  }

  // ---------------------------------------------------------------------------
  // Main result
  // ---------------------------------------------------------------------------

  /** An open production order that started in the bucket and is not in the cycles table yet. */
  ghost predicate Unsettled(rows: seq<CycleRow>, t: State, lo: int, hi: int) {
    t.current.Some? && t.current.value.isProduction && lo <= t.current.value.startedMS < hi
    && !HasOrder(rows, t.current.value.orderKey)
  }

  lemma {:induction false} SettledStays(c: CycleTable, t: State, now: int, ivs: seq<Interval>, lo: int, hi: int)
    requires hi <= now && !Unsettled(c.rows, t, lo, hi)
    requires forall k | 0 <= k < |ivs| :: Since(t, now, ivs[k])
    ensures SameCounts(AggregateCycles(WriteCycles(c, ivs).rows, lo, hi), AggregateCycles(c.rows, lo, hi))
    ensures forall id :: HasOrder(c.rows, id) ==> HasOrder(WriteCycles(c, ivs).rows, id)
  {
    hide AggregateCycles, HasOrder, UpsertCycle;
    if ivs != [] {
      SettledStays(c, t, now, Front(ivs), lo, hi);
      var d, iv := WriteCycles(c, Front(ivs)), Last(ivs);
      UpsertCounts(d.rows, CycleOf(iv, Guarded(d.marks, "cycles", iv.endedMS)), lo, hi);
    }
  }

  lemma UnsettledShows(cfg: Settings, c: CycleTable, t: State, now: int, lo: int, hi: int)
    requires hi <= now && Unsettled(c.rows, t, lo, hi) && t.closed == []
    ensures AggregateCycles(WriteCycles(c, LaterIntervals(cfg, t, [], now)).rows, lo, hi).started
         == AggregateCycles(c.rows, lo, hi).started + 1
  {
    hide AggregateCycles, HasOrder, UpsertCycle, CloseInterval, SameRows, SameTally;
    assert Run(cfg, t, []) == t;
    var ivs := LaterIntervals(cfg, t, [], now);
    FlushedAtOnce(cfg, t, now);
    assert Front(ivs) == [];
    UpsertCounts(c.rows, CycleOf(ivs[0], Guarded(c.marks, "cycles", ivs[0].endedMS)), lo, hi);
  }

  ghost predicate FinalAgainst(cfg: Settings, c: CycleTable, t: State, inputs: seq<Input>, closeAt: int, lo: int,
                               hi: int)
  {
    SameCounts(AggregateCycles(WriteCycles(c, LaterIntervals(cfg, t, inputs, closeAt)).rows, lo, hi),
               AggregateCycles(c.rows, lo, hi))
  }

  /** On the base path, with everything closed handed over, the counts of a bucket that has ended equal a recount after
      every continuation of the run, exactly when no open production order is unsettled in the bucket. An open interval
      that started at the bucket's end or later never is. */
  lemma CountsFinalExactly(cfg: Settings, c: CycleTable, t: State, now: int, lo: int, hi: int)
    requires lo < hi <= now && t.closed == []
    ensures (forall inputs, closeAt | BasePath(now, inputs) && Now(now, inputs) <= closeAt ::
               FinalAgainst(cfg, c, t, inputs, closeAt, lo, hi))
       <==> !Unsettled(c.rows, t, lo, hi)
  {
    hide Run, FlushOpen, AggregateCycles, WriteCycles;
    if Unsettled(c.rows, t, lo, hi) {
      UnsettledShows(cfg, c, t, now, lo, hi);
      assert BasePath(now, []) && Now(now, []) <= now;
      assert !FinalAgainst(cfg, c, t, [], now, lo, hi);
    } else {
      forall inputs, closeAt | BasePath(now, inputs) && Now(now, inputs) <= closeAt
        ensures FinalAgainst(cfg, c, t, inputs, closeAt, lo, hi)
      {
        LaterSince(cfg, t, now, inputs, closeAt);
        SettledStays(c, t, now, LaterIntervals(cfg, t, inputs, closeAt), lo, hi);
      }
    }
  }
}
