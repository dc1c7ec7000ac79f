/** When the glass count of an emitted hour row is final (cmd/projector/rollup.go, cmd/projector/writer.go): a late
    order row may still fill the count of a stored cycle. */
module GlassFinality {
  import opened Source
  import opened Intervals
  import opened TrackerSpec
  import opened Frames
  import opened Replica
  import opened Additivity
  import opened Finality
  import Calendar

  // ---------------------------------------------------------------------------
  // What writing a cycle does to the glasses of a window
  // ---------------------------------------------------------------------------

  /** A completed cycle of the window without a glass count. */
  predicate LacksGlasses(r: CycleRow, lo: int, hi: int) {
    lo <= r.startedMS < hi && r.isProduction && r.result == Completed && r.glassCount.None?
  }

  /** The stored cycle of an order lacks its glass count. */
  predicate Wants(rows: seq<CycleRow>, id: string, lo: int, hi: int) {
    rows != [] && if rows[0].orderID == id then LacksGlasses(rows[0], lo, hi) else Wants(rows[1..], id, lo, hi)
  }

  function GlassesIn(rows: seq<CycleRow>, lo: int, hi: int): int {
    WindowSum(rows, CycleStart, Glasses, lo, hi)
  }

  function GlassesOf(c: CycleRow, lo: int, hi: int): int {
    if lo <= c.startedMS < hi then Glasses(c) else 0
  }

  lemma GlassesHead(rows: seq<CycleRow>, c: CycleRow, lo: int, hi: int)
    ensures GlassesIn([c] + rows, lo, hi) == GlassesOf(c, lo, hi) + GlassesIn(rows, lo, hi)
  {
    SumHead(rows, c, Glasses, lo, hi);
  }

  lemma WantsHead(rows: seq<CycleRow>, c: CycleRow, id: string, lo: int, hi: int)
    ensures Wants([c] + rows, id, lo, hi)
       <==> if c.orderID == id then LacksGlasses(c, lo, hi) else Wants(rows, id, lo, hi)
  {
    hide LacksGlasses;
    assert ([c] + rows)[1..] == rows;
  }

  /** Writing a cycle fills the count of a stored one that lacks it, or adds a new row. */
  lemma {:induction false} UpsertGlasses(rows: seq<CycleRow>, c: CycleRow, lo: int, hi: int)
    ensures GlassesIn(UpsertCycle(rows, c), lo, hi) == GlassesIn(rows, lo, hi)
              + if !HasOrder(rows, c.orderID) then GlassesOf(c, lo, hi)
                else if Wants(rows, c.orderID, lo, hi) then c.glassCount.GetOr(0) else 0
    ensures forall id :: Wants(UpsertCycle(rows, c), id, lo, hi) <==>
              if id != c.orderID then Wants(rows, id, lo, hi)
              else if HasOrder(rows, id) then Wants(rows, id, lo, hi) && c.glassCount.None?
              else LacksGlasses(c, lo, hi)
  {
    hide GlassesIn, HasOrder;
    if rows == [] {
      NoOrders();
      GlassesHead([], c, lo, hi);
      assert [c] + [] == [c];
    } else {
      var h, tail := rows[0], rows[1..];
      assert rows == [h] + tail;
      OneOrder(tail, h);
      GlassesHead(tail, h, lo, hi);
      if h.orderID == c.orderID {
        var filled := h.(recipeID := FirstOr(h.recipeID, c.recipeID),
                         glassCount := FirstOr(h.glassCount, c.glassCount));
        GlassesHead(tail, filled, lo, hi);
        forall id ensures Wants([filled] + tail, id, lo, hi) <==>
                            if filled.orderID == id then LacksGlasses(filled, lo, hi) else Wants(tail, id, lo, hi) {
          WantsHead(tail, filled, id, lo, hi);
        }
      } else {
        UpsertGlasses(tail, c, lo, hi);
        GlassesHead(UpsertCycle(tail, c), h, lo, hi);
        forall id ensures Wants([h] + UpsertCycle(tail, c), id, lo, hi) <==>
                            if h.orderID == id then LacksGlasses(h, lo, hi)
                            else Wants(UpsertCycle(tail, c), id, lo, hi)
        {
          WantsHead(UpsertCycle(tail, c), h, id, lo, hi);
        }
      }
    }
  }

  lemma {:induction false} WantedIsStored(rows: seq<CycleRow>, id: string, lo: int, hi: int)
    ensures Wants(rows, id, lo, hi) ==> HasOrder(rows, id)
  {
    hide HasOrder, LacksGlasses;
    if rows != [] {
      assert rows == [rows[0]] + rows[1..];
      OneOrder(rows[1..], rows[0]);
      WantedIsStored(rows[1..], id, lo, hi);
    }
  }

  // ---------------------------------------------------------------------------
  // The condition
  // ---------------------------------------------------------------------------

  /** The open interval is the order's, is about to be closed by the duration cap, and carries a glass count of zero,
      which will be filled in first. */
  predicate HeldAtZero(cfg: Settings, t: State, now: int, id: string) {
    t.current.Some? && t.current.value.orderKey == id && Overdue(cfg, t, now) && t.current.value.glassCount == Some(0)
  }

  ghost predicate Lacking(cfg: Settings, rows: seq<CycleRow>, t: State, now: int, lo: int, hi: int) {
    exists id :: id != "" && Wants(rows, id, lo, hi) && !HeldAtZero(cfg, t, now, id)
  }

  /** A stored cycle of the window lacks its glass count, or an open order of the window may still be completed. */
  ghost predicate UnsettledGlasses(cfg: Settings, rows: seq<CycleRow>, t: State, now: int, lo: int, hi: int) {
    Lacking(cfg, rows, t, now, lo, hi) || (Unsettled(rows, t, lo, hi) && !Overdue(cfg, t, now))
  }

  /** What every run keeps of its open interval: it has a key, and an order is aborted until shown otherwise. */
  predicate OpenUndecided(t: State) {
    t.current.Some? ==>
      t.current.value.orderKey != "" && (t.current.value.isProduction ==> t.current.value.result == Aborted)
  }

  lemma StepUndecided(cfg: Settings, t: State, i: Input)
    requires OpenUndecided(t)
    ensures OpenUndecided(Step(cfg, t, i))
  {
    hide CloseInterval, EnsureInterval, Record, SynthKey, SameRows, SameTally, VerdictOf;
    EnsureShape(cfg, t, KeyOf(i), StateOf(t, i), OpenAtMS(i));
    var forced := if Overdue(cfg, t, OpenAtMS(i)) then Some(ForcedResult(t.current.value)) else None;
    CloseFrame(t, OpenAtMS(i), forced);
    var t1 := Opened(cfg, t, i);
    KeyNotEmpty(ResultForState(StateOf(t, i)), OpenAtMS(i), t.synthCounter + 1);
    CloseFrame(Record(cfg, t1, i), AtMS(i), VerdictOf(cfg, t1, i));
  }

  lemma KeyNotEmpty(r: Result, at: int, n: nat)
    ensures SynthKey(r, at, n) != ""
  {
    assert |SynthPrefix(r)| > 0;
  }

  lemma {:induction false} RunUndecided(cfg: Settings, t: State, inputs: seq<Input>)
    requires OpenUndecided(t)
    ensures OpenUndecided(Run(cfg, t, inputs))
  {
    hide Step, OpenUndecided;
    if inputs != [] {
      RunUndecided(cfg, t, Front(inputs));
      StepUndecided(cfg, Run(cfg, t, Front(inputs)), Last(inputs));
    }
  }

  // ---------------------------------------------------------------------------
  // Settled counts stay
  // ---------------------------------------------------------------------------

  ghost predicate NoneWants(rows: seq<CycleRow>, lo: int, hi: int) {
    forall id | id != "" :: !Wants(rows, id, lo, hi)
  }

  /** Started at an instant or later, under a key. */
  predicate NewAndNamed(iv: Interval, now: int) {
    now <= iv.startedMS && iv.orderKey != ""
  }

  /** The interval adds no glasses to the window: it is stored already, not of the window, or not a completed order. */
  ghost predicate AddsNoGlasses(rows: seq<CycleRow>, iv: Interval, lo: int, hi: int) {
    iv.orderKey != ""
    && (HasOrder(rows, iv.orderKey) || !(lo <= iv.startedMS < hi) || !iv.isProduction || iv.result != Completed)
  }

  lemma QuietWrite(d: CycleTable, iv: Interval, lo: int, hi: int)
    requires NoneWants(d.rows, lo, hi) && AddsNoGlasses(d.rows, iv, lo, hi)
    ensures NoneWants(WriteCycle(d, iv).rows, lo, hi)
    ensures GlassesIn(WriteCycle(d, iv).rows, lo, hi) == GlassesIn(d.rows, lo, hi)
  {
    hide GlassesIn, HasOrder, Guarded, SetMark, UpsertCycle, Calendar.DateUTC, Wants;
    var c := CycleOf(iv, Guarded(d.marks, "cycles", iv.endedMS));
    UpsertGlasses(d.rows, c, lo, hi);
  }

  lemma OrdersGrow(d: CycleTable, iv: Interval)
    ensures forall id :: HasOrder(WriteCycle(d, iv).rows, id) <==> HasOrder(d.rows, id) || id == iv.orderKey
  {
    hide HasOrder, Guarded, SetMark, UpsertCycle, Calendar.DateUTC, AggregateCycles;
    UpsertCounts(d.rows, CycleOf(iv, Guarded(d.marks, "cycles", iv.endedMS)), 0, 0);
  }

  /** With nothing lacking, intervals of the open order and later ones leave the glasses alone, unless the open order is
      unsettled. */
  lemma {:induction false} QuietWrites(c: CycleTable, t: State, now: int, ivs: seq<Interval>, lo: int, hi: int)
    requires hi <= now && NoneWants(c.rows, lo, hi) && !Unsettled(c.rows, t, lo, hi)
    requires forall k | 0 <= k < |ivs| :: Since(t, now, ivs[k]) && ivs[k].orderKey != ""
    ensures NoneWants(WriteCycles(c, ivs).rows, lo, hi)
    ensures GlassesIn(WriteCycles(c, ivs).rows, lo, hi) == GlassesIn(c.rows, lo, hi)
    ensures forall id :: HasOrder(c.rows, id) ==> HasOrder(WriteCycles(c, ivs).rows, id)
  {
    hide GlassesIn, HasOrder, NoneWants, WriteCycle;
    if ivs != [] {
      QuietWrites(c, t, now, Front(ivs), lo, hi);
      var d, iv := WriteCycles(c, Front(ivs)), Last(ivs);
      assert iv == ivs[|ivs| - 1];
      assert AddsNoGlasses(d.rows, iv, lo, hi);
      QuietWrite(d, iv, lo, hi);
      OrdersGrow(d, iv);
    }
  }

  ghost predicate AllNamed(s: State) {
    (s.current.Some? ==> s.current.value.orderKey != "")
    && forall k | 0 <= k < |s.closed| :: s.closed[k].orderKey != ""
  }

  lemma StepNamed(cfg: Settings, s: State, i: Input)
    requires AllNamed(s)
    ensures AllNamed(Step(cfg, s, i))
  {
    hide CloseInterval, EnsureInterval, Record, SynthKey, SameRows, SameTally, VerdictOf;
    EnsureShape(cfg, s, KeyOf(i), StateOf(s, i), OpenAtMS(i));
    var forced := if Overdue(cfg, s, OpenAtMS(i)) then Some(ForcedResult(s.current.value)) else None;
    CloseFrame(s, OpenAtMS(i), forced);
    var s1 := Opened(cfg, s, i);
    KeyNotEmpty(ResultForState(StateOf(s, i)), OpenAtMS(i), s.synthCounter + 1);
    CloseFrame(Record(cfg, s1, i), AtMS(i), VerdictOf(cfg, s1, i));
  }

  lemma {:induction false} RunNamed(cfg: Settings, t: State, inputs: seq<Input>)
    requires AllNamed(t)
    ensures AllNamed(Run(cfg, t, inputs))
  {
    hide Step, AllNamed;
    if inputs != [] {
      RunNamed(cfg, t, Front(inputs));
      StepNamed(cfg, Run(cfg, t, Front(inputs)), Last(inputs));
    }
  }

  lemma LaterNamed(cfg: Settings, t: State, inputs: seq<Input>, closeAt: int)
    requires OpenUndecided(t) && t.closed == []
    ensures forall k | 0 <= k < |LaterIntervals(cfg, t, inputs, closeAt)| ::
              LaterIntervals(cfg, t, inputs, closeAt)[k].orderKey != ""
  {
    hide Run, CloseInterval, SameRows, SameTally;
    RunNamed(cfg, t, inputs);
    var s := Run(cfg, t, inputs);
    CloseFrame(s, FlushAt(s, closeAt), FlushResult(s));
  }

  // An open interval that has reached the cap is the first to be written, aborted if it is an order.

  ghost predicate CappedAs(iv: Interval, r: Interval) {
    exists at :: IsSealed(iv, r, at, Some(ForcedResult(iv)))
  }

  ghost predicate CappedFirst(t: State, now: int, s: State) {
    && s.closed != [] && t.current.Some?
    && CappedAs(t.current.value, s.closed[0])
    && (forall k | 1 <= k < |s.closed| :: now <= s.closed[k].startedMS)
    && (s.current.Some? ==> now <= s.current.value.startedMS)
  }

  lemma CloseCapped(t: State, now: int, s: State, atMS: int, forced: Option<Result>)
    requires CappedFirst(t, now, s)
    ensures CappedFirst(t, now, CloseInterval(s, atMS, forced))
  {
    hide CloseInterval, SameRows, SameTally, IsSealed, CappedAs;
    CloseFrame(s, atMS, forced);
    if s.current.Some? {
      LastIsSealed(s, atMS, forced);
      var c := CloseInterval(s, atMS, forced);
      assert c.closed[0] == s.closed[0];
    }
  }

  lemma LastIsSealed(s: State, atMS: int, forced: Option<Result>)
    requires s.current.Some?
    ensures var c := CloseInterval(s, atMS, forced);
            c.finished != [] && Last(c.finished).startedMS == s.current.value.startedMS
  {
    hide CloseInterval, SameRows, SameTally;
    CloseFrame(s, atMS, forced);
  }

  lemma StepCapped(cfg: Settings, t: State, now: int, s: State, i: Input)
    requires CappedFirst(t, now, s) && now <= AtMS(i) && !IsStepRun(i)
    ensures CappedFirst(t, now, Step(cfg, s, i))
  {
    hide CloseInterval, EnsureInterval, Record, VerdictOf, SynthKey, CappedAs;
    EnsureShape(cfg, s, KeyOf(i), StateOf(s, i), AtMS(i));
    var forced := if Overdue(cfg, s, AtMS(i)) then Some(ForcedResult(s.current.value)) else None;
    CloseCapped(t, now, s, AtMS(i), forced);
    var s1 := Opened(cfg, s, i);
    assert CappedFirst(t, now, s1);
    CloseCapped(t, now, Record(cfg, s1, i), AtMS(i), VerdictOf(cfg, s1, i));
  }

  lemma FirstStepCaps(cfg: Settings, t: State, now: int, i: Input)
    requires t.closed == [] && Overdue(cfg, t, now) && now <= AtMS(i) && !IsStepRun(i)
    ensures CappedFirst(t, now, Step(cfg, t, i))
  {
    hide CloseInterval, EnsureInterval, Record, VerdictOf, SynthKey, IsSealed;
    EnsureShape(cfg, t, KeyOf(i), StateOf(t, i), AtMS(i));
    var forced := Some(ForcedResult(t.current.value));
    var c := CloseInterval(t, AtMS(i), forced);
    CloseFrame(t, AtMS(i), forced);
    assert c.closed == [Last(c.finished)];
    assert IsSealed(t.current.value, c.closed[0], AtMS(i), forced);
    var s1 := Opened(cfg, t, i);
    assert CappedFirst(t, now, s1);
    CloseCapped(t, now, Record(cfg, s1, i), AtMS(i), VerdictOf(cfg, s1, i));
  }

  lemma {:induction false} RunCapped(cfg: Settings, t: State, now: int, inputs: seq<Input>)
    requires t.closed == [] && Overdue(cfg, t, now) && BasePath(now, inputs) && inputs != []
    ensures CappedFirst(t, now, Run(cfg, t, inputs))
  {
    hide Step, CappedFirst, Overdue;
    TimeOrderedFront(now, inputs);
    if Front(inputs) == [] {
      assert Run(cfg, t, Front(inputs)) == t;
      FirstStepCaps(cfg, t, now, Last(inputs));
    } else {
      RunCapped(cfg, t, now, Front(inputs));
      StepCapped(cfg, t, now, Run(cfg, t, Front(inputs)), Last(inputs));
    }
  }

  /** The first later interval is the capped one; the others started at now or later. */
  lemma LaterCapped(cfg: Settings, t: State, now: int, inputs: seq<Input>, closeAt: int)
    requires t.closed == [] && Overdue(cfg, t, now) && BasePath(now, inputs)
    ensures var ivs := LaterIntervals(cfg, t, inputs, closeAt);
            && ivs != [] && CappedAs(t.current.value, ivs[0])
            && forall k | 1 <= k < |ivs| :: now <= ivs[k].startedMS
  {
    hide Run, CloseInterval, SameRows, SameTally;
    var s := Run(cfg, t, inputs);
    if inputs == [] {
      RunOfNothing(cfg, t);
      FlushedAtOnce(cfg, t, closeAt);
      var ivs := LaterIntervals(cfg, t, inputs, closeAt);
      assert IsSealed(t.current.value, ivs[0], FlushAt(t, closeAt), Some(ForcedResult(t.current.value)));
    } else {
      RunCapped(cfg, t, now, inputs);
      CloseCapped(t, now, s, FlushAt(s, closeAt), FlushResult(s));
    }
  }

  lemma RunOfNothing(cfg: Settings, t: State)
    ensures Run(cfg, t, []) == t
  {
  }

  /** Writing the capped interval settles the only count that may still be lacking, at zero. */
  lemma CappedWrite(cfg: Settings, c: CycleTable, t: State, now: int, iv: Interval, at: int, lo: int, hi: int)
    requires Overdue(cfg, t, now) && OpenUndecided(t) && !Lacking(cfg, c.rows, t, now, lo, hi)
    requires IsSealed(t.current.value, iv, at, Some(ForcedResult(t.current.value)))
    ensures NoneWants(WriteCycle(c, iv).rows, lo, hi)
    ensures GlassesIn(WriteCycle(c, iv).rows, lo, hi) == GlassesIn(c.rows, lo, hi)
  {
    hide GlassesIn, HasOrder, Guarded, SetMark, UpsertCycle, Calendar.DateUTC, Wants, SameRows;
    var row := CycleOf(iv, Guarded(c.marks, "cycles", iv.endedMS));
    UpsertGlasses(c.rows, row, lo, hi);
    assert iv.glassCount == t.current.value.glassCount && iv.orderKey == t.current.value.orderKey != "";
    WantedIsStored(c.rows, iv.orderKey, lo, hi);
    forall id | id != "" ensures !Wants(WriteCycle(c, iv).rows, id, lo, hi) {
      assert Wants(c.rows, id, lo, hi) ==> HeldAtZero(cfg, t, now, id);
    }
  }

  lemma {:induction false} NewWrites(c: CycleTable, now: int, ivs: seq<Interval>, lo: int, hi: int)
    requires hi <= now && NoneWants(c.rows, lo, hi) && forall k | 0 <= k < |ivs| :: NewAndNamed(ivs[k], now)
    ensures GlassesIn(WriteCycles(c, ivs).rows, lo, hi) == GlassesIn(c.rows, lo, hi)
    ensures NoneWants(WriteCycles(c, ivs).rows, lo, hi)
  {
    hide GlassesIn, HasOrder, NoneWants, WriteCycle;
    if ivs != [] {
      NewWrites(c, now, Front(ivs), lo, hi);
      QuietWrite(WriteCycles(c, Front(ivs)), Last(ivs), lo, hi);
    }
  }

  lemma {:induction false} WriteHead(c: CycleTable, iv: Interval, ivs: seq<Interval>)
    ensures WriteCycles(c, [iv] + ivs) == WriteCycles(WriteCycle(c, iv), ivs)
  {
    hide WriteCycle;
    if ivs == [] {
      assert Front([iv]) == [] && [iv] + [] == [iv];
    } else {
      assert Front([iv] + ivs) == [iv] + Front(ivs) && Last([iv] + ivs) == Last(ivs);
      WriteHead(c, iv, Front(ivs));
    }
  }

  ghost predicate GlassesFinalAgainst(cfg: Settings, c: CycleTable, t: State, inputs: seq<Input>, closeAt: int, lo: int,
                                      hi: int) {
    GlassesIn(WriteCycles(c, LaterIntervals(cfg, t, inputs, closeAt)).rows, lo, hi) == GlassesIn(c.rows, lo, hi)
  }

  lemma SettledGlassesStay(cfg: Settings, c: CycleTable, t: State, now: int, inputs: seq<Input>, closeAt: int, lo: int,
                           hi: int)
    requires lo < hi <= now && t.closed == [] && OpenUndecided(t) && BasePath(now, inputs)
    requires !UnsettledGlasses(cfg, c.rows, t, now, lo, hi)
    ensures GlassesFinalAgainst(cfg, c, t, inputs, closeAt, lo, hi)
  {
    hide GlassesIn, WriteCycles, LaterIntervals, Run, BasePath, Unsettled, Wants;
    if Overdue(cfg, t, now) {
      CappedGlassesStay(cfg, c, t, now, inputs, closeAt, lo, hi);
    } else {
      LaterNamed(cfg, t, inputs, closeAt);
      LaterSince(cfg, t, now, inputs, closeAt);
      assert NoneWants(c.rows, lo, hi);
      QuietWrites(c, t, now, LaterIntervals(cfg, t, inputs, closeAt), lo, hi);
    }
  }

  lemma CappedGlassesStay(cfg: Settings, c: CycleTable, t: State, now: int, inputs: seq<Input>, closeAt: int, lo: int,
                          hi: int)
    requires hi <= now && t.closed == [] && OpenUndecided(t) && BasePath(now, inputs) && Overdue(cfg, t, now)
    requires !Lacking(cfg, c.rows, t, now, lo, hi)
    ensures GlassesFinalAgainst(cfg, c, t, inputs, closeAt, lo, hi)
  {
    hide GlassesIn, WriteCycle, WriteCycles, LaterIntervals, Run, BasePath, Lacking, IsSealed, OpenUndecided, NoneWants;
    var ivs := LaterIntervals(cfg, t, inputs, closeAt);
    LaterNamed(cfg, t, inputs, closeAt);
    LaterCapped(cfg, t, now, inputs, closeAt);
    var at :| IsSealed(t.current.value, ivs[0], at, Some(ForcedResult(t.current.value)));
    CappedWrite(cfg, c, t, now, ivs[0], at, lo, hi);
    assert ivs == [ivs[0]] + ivs[1..];
    WriteHead(c, ivs[0], ivs[1..]);
    NewWrites(WriteCycle(c, ivs[0]), now, ivs[1..], lo, hi);
  }

  // ---------------------------------------------------------------------------
  // Unsettled counts show
  // ---------------------------------------------------------------------------

  function OrderAt(id: string, q: int, now: int): Input {
    Apply(OrderRow(Order(1, now * 1_000_000, id, 0, q)))
  }

  function CompletionAt(id: string, now: int): Input {
    Apply(EventRow(FsmEvent(1, now * 1_000_000, "", AUTO_CYCLE, None, Some(AUTO_CYCLE_COMPLETE_STEP), id, "")))
  }

  /** The interval an order row opens or finds, and what was closed for it. */
  ghost function ForOrder(cfg: Settings, t: State, id: string, now: int): State {
    EnsureInterval(cfg, t, id, AUTO_CYCLE, now)
  }

  lemma OrderIsServed(cfg: Settings, t: State, id: string, q: int, now: int)
    requires id != "" && t.closed == []
    ensures var s, t1 := Run(cfg, t, [OrderAt(id, q, now)]), ForOrder(cfg, t, id, now);
            && s.closed == t1.closed && s.current.Some? && s.current.value.orderKey == id
            && s.current.value.glassCount == Some(q) && s.current.value.startedMS == t1.current.value.startedMS
            && s.current.value.isProduction == t1.current.value.isProduction
    ensures BasePath(now, [OrderAt(id, q, now)]) && Now(now, [OrderAt(id, q, now)]) == now
  {
    hide CloseInterval, EnsureInterval;
    var i := OrderAt(id, q, now);
    assert AtMS(i) == now && Front([i]) == [] && Last([i]) == i;
    RunUnfold(cfg, t, [i]);
    EnsureShape(cfg, t, id, AUTO_CYCLE, now);
  }

  /** An order row and a flush at one instant write what was closed for the order, and then its interval. */
  lemma OrderIsWritten(cfg: Settings, t: State, id: string, q: int, now: int)
    requires id != "" && t.closed == []
    ensures var ivs, pre := LaterIntervals(cfg, t, [OrderAt(id, q, now)], now), ForOrder(cfg, t, id, now).closed;
            |ivs| == |pre| + 1 && Front(ivs) == pre && Last(ivs).orderKey == id && Last(ivs).glassCount == Some(q)
  {
    hide CloseInterval, Run, ForOrder, SameRows;
    var s := Run(cfg, t, [OrderAt(id, q, now)]);
    OrderIsServed(cfg, t, id, q, now);
    CloseFrame(s, FlushAt(s, now), FlushResult(s));
  }

  /** What is closed for an order row: nothing, or the open interval, which is not the order's unless it is overdue. */
  lemma ClosedForOrder(cfg: Settings, t: State, id: string, now: int)
    requires id != "" && t.closed == []
    ensures var pre := ForOrder(cfg, t, id, now).closed;
            pre == []
            || (|pre| == 1 && t.current.Some? && pre[0].orderKey == t.current.value.orderKey
                && pre[0].glassCount == t.current.value.glassCount
                && (t.current.value.orderKey == id ==> Overdue(cfg, t, now)))
    ensures t.current.Some? && t.current.value.orderKey == id && Overdue(cfg, t, now) ==>
              ForOrder(cfg, t, id, now).closed != []
  {
    hide CloseInterval, EnsureInterval, SynthKey, SameRows;
    EnsureShape(cfg, t, id, AUTO_CYCLE, now);
    var forced := if Overdue(cfg, t, now) then Some(ForcedResult(t.current.value)) else None;
    CloseFrame(t, now, forced);
  }

  lemma LackingShows(cfg: Settings, c: CycleTable, t: State, now: int, id: string, lo: int, hi: int)
    requires id != "" && Wants(c.rows, id, lo, hi) && !HeldAtZero(cfg, t, now, id)
    requires t.closed == [] && OpenUndecided(t)
    ensures exists inputs | BasePath(now, inputs) && Now(now, inputs) <= now ::
              !GlassesFinalAgainst(cfg, c, t, inputs, now, lo, hi)
  {
    hide GlassesIn, WriteCycle, Run, BasePath, Overdue, Wants, ForOrder, LaterIntervals, HasOrder, Now;
    var pre := ForOrder(cfg, t, id, now).closed;
    var d := WriteCycles(c, pre);
    var y := GlassesIn(d.rows, lo, hi) - GlassesIn(c.rows, lo, hi);
    var q := if y == -1 then 2 else 1;
    OrderIsWritten(cfg, t, id, q, now);
    OrderIsServed(cfg, t, id, q, now);
    ClosedForOrder(cfg, t, id, now);
    WantedIsStored(c.rows, id, lo, hi);
    var inputs := [OrderAt(id, q, now)];
    var ivs := LaterIntervals(cfg, t, inputs, now);
    if pre != [] {
      assert WriteCycles(c, []) == c && Front(pre) == [] && d == WriteCycle(c, pre[0]);
      FilledFirst(c, pre[0], id, lo, hi);
    }
    assert HasOrder(d.rows, id);
    WriteFills(d, Last(ivs), lo, hi);
    assert !GlassesFinalAgainst(cfg, c, t, inputs, now, lo, hi);
  }

  /** Writing another interval first: it leaves the count lacking, or it is the order's own and fills it. */
  lemma FilledFirst(c: CycleTable, iv: Interval, id: string, lo: int, hi: int)
    requires Wants(c.rows, id, lo, hi) && HasOrder(c.rows, id)
    ensures var d := WriteCycle(c, iv);
            && HasOrder(d.rows, id)
            && (Wants(d.rows, id, lo, hi) <==> iv.orderKey != id || iv.glassCount.None?)
            && (iv.orderKey == id ==>
                  GlassesIn(d.rows, lo, hi) == GlassesIn(c.rows, lo, hi) + iv.glassCount.GetOr(0))
  {
    hide GlassesIn, Wants, HasOrder, Guarded, SetMark, UpsertCycle, Calendar.DateUTC;
    OrdersGrow(c, iv);
    UpsertGlasses(c.rows, CycleOf(iv, Guarded(c.marks, "cycles", iv.endedMS)), lo, hi);
  }

  lemma WriteFills(d: CycleTable, iv: Interval, lo: int, hi: int)
    requires HasOrder(d.rows, iv.orderKey)
    ensures GlassesIn(WriteCycle(d, iv).rows, lo, hi)
         == GlassesIn(d.rows, lo, hi) + if Wants(d.rows, iv.orderKey, lo, hi) then iv.glassCount.GetOr(0) else 0
  {
    hide GlassesIn, Wants, HasOrder, Guarded, SetMark, UpsertCycle, Calendar.DateUTC;
    UpsertGlasses(d.rows, CycleOf(iv, Guarded(d.marks, "cycles", iv.endedMS)), lo, hi);
  }

  /** An open order below the cap is completed with one glass. */
  lemma OrderCompletes(cfg: Settings, t: State, now: int)
    requires t.closed == [] && t.current.Some? && t.current.value.isProduction && t.current.value.orderKey != ""
    requires t.current.value.startedMS < now && !Overdue(cfg, t, now)
    ensures var inputs := [OrderAt(t.current.value.orderKey, 1, now), CompletionAt(t.current.value.orderKey, now)];
            var ivs := LaterIntervals(cfg, t, inputs, now);
            && BasePath(now, inputs) && Now(now, inputs) == now && |ivs| == 1
            && ivs[0].orderKey == t.current.value.orderKey && ivs[0].isProduction && ivs[0].result == Completed
            && ivs[0].startedMS == t.current.value.startedMS && ivs[0].glassCount == Some(1)
  {
    hide CloseInterval, EnsureInterval, RecordEvent, SameRows;
    var id := t.current.value.orderKey;
    var a, b := OrderAt(id, 1, now), CompletionAt(id, now);
    assert AtMS(a) == now && AtMS(b) == now;
    assert Front([a, b]) == [a] && Last([a, b]) == b && Front([a]) == [] && Last([a]) == a;
    RunUnfold(cfg, t, [a]);
    EnsureShape(cfg, t, id, AUTO_CYCLE, now);
    var s := Run(cfg, t, [a]);
    assert s == RecordOrder(t, a.row.order);
    RunUnfold(cfg, t, [a, b]);
    EnsureShape(cfg, s, id, AUTO_CYCLE, now);
    CloseFrame(Record(cfg, s, b), now, Some(Completed));
  }

  lemma UnsettledOrderShows(cfg: Settings, c: CycleTable, t: State, now: int, lo: int, hi: int)
    requires lo < hi <= now && t.closed == [] && OpenUndecided(t)
    requires Unsettled(c.rows, t, lo, hi) && !Overdue(cfg, t, now)
    ensures exists inputs | BasePath(now, inputs) && Now(now, inputs) <= now ::
              !GlassesFinalAgainst(cfg, c, t, inputs, now, lo, hi)
  {
    hide GlassesIn, UpsertCycle, LaterIntervals, HasOrder, Overdue, Guarded, SetMark, Calendar.DateUTC, Wants;
    var id := t.current.value.orderKey;
    var inputs := [OrderAt(id, 1, now), CompletionAt(id, now)];
    OrderCompletes(cfg, t, now);
    var ivs := LaterIntervals(cfg, t, inputs, now);
    assert Front(ivs) == [] && WriteCycles(c, []) == c;
    UpsertGlasses(c.rows, CycleOf(ivs[0], Guarded(c.marks, "cycles", ivs[0].endedMS)), lo, hi);
    assert !GlassesFinalAgainst(cfg, c, t, inputs, now, lo, hi);
  }

  /** On the base path, with everything closed handed over, the glasses of a bucket that has ended equal a recount after
      every continuation of the run exactly when no stored cycle of the bucket lacks its count and no open order of the
      bucket below the cap is unwritten. A count that the capped open interval holds at zero is as good as filled. */
  lemma GlassesFinalExactly(cfg: Settings, c: CycleTable, t: State, now: int, lo: int, hi: int)
    requires lo < hi <= now && t.closed == [] && OpenUndecided(t)
    ensures (forall inputs, closeAt | BasePath(now, inputs) && Now(now, inputs) <= closeAt ::
               GlassesFinalAgainst(cfg, c, t, inputs, closeAt, lo, hi))
       <==> !UnsettledGlasses(cfg, c.rows, t, now, lo, hi)
  {
    hide GlassesFinalAgainst, Run, BasePath, Overdue, Unsettled, Wants, OpenUndecided, HeldAtZero, Now;
    if UnsettledGlasses(cfg, c.rows, t, now, lo, hi) {
      if Lacking(cfg, c.rows, t, now, lo, hi) {
        var id :| id != "" && Wants(c.rows, id, lo, hi) && !HeldAtZero(cfg, t, now, id);
        LackingShows(cfg, c, t, now, id, lo, hi);
      } else {
        UnsettledOrderShows(cfg, c, t, now, lo, hi);
      }
    } else {
      forall inputs, closeAt | BasePath(now, inputs) && Now(now, inputs) <= closeAt
        ensures GlassesFinalAgainst(cfg, c, t, inputs, closeAt, lo, hi)
      {
        SettledGlassesStay(cfg, c, t, now, inputs, closeAt, lo, hi);
      }
    }
  }
}
