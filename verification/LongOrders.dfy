/** Orders that outlast the duration cap (cmd/projector/tracker.go, cmd/projector/writer.go): when their completion is
    recorded, and what the cycles table keeps of an order emitted more than once. */
module LongOrders {
  import opened Source
  import opened Intervals
  import opened TrackerSpec
  import opened Frames
  import opened Replica
  import opened Finality
  import opened Timeline
  import Calendar
  import SynthKeys

  // ---------------------------------------------------------------------------
  // Completion
  // ---------------------------------------------------------------------------

  /** The last interval queued is a completed one, queued by this step. */
  predicate CompletesBy(t: State, s: State) {
    s.closed != t.closed && s.closed != [] && Last(s.closed).result == Completed
  }

  /** The completion marker of the open order is recorded exactly when the order has a length and has not reached the
      duration cap. At the cap the order is aborted and reopened by the very row that completes it, and the completed
      interval, of no length, is dropped. */
  lemma CompletionIsRecorded(cfg: Settings, t: State, e: FsmEvent)
    requires e.currentState == "AutoCycle" && e.stepTo == Some(19) && t.current.Some? && t.current.value.isProduction
    requires e.orderKey != "" && t.current.value.orderKey == e.orderKey
    ensures CompletesBy(t, Step(cfg, t, Apply(EventRow(e))))
       <==> t.current.value.startedMS < Millis(e.ts)
            && (cfg.maxIntervalMS > 0 ==> Millis(e.ts) < t.current.value.startedMS + cfg.maxIntervalMS)
  {
    hide CloseInterval, EnsureInterval, Record, SameRows, SameTally;
    var i := Apply(EventRow(e));
    var atMS := Millis(e.ts);
    EnsureShape(cfg, t, e.orderKey, e.currentState, atMS);
    var t1 := Opened(cfg, t, i);
    if Overdue(cfg, t, atMS) {
      CloseFrame(t, atMS, Some(Aborted));
    }
    CloseFrame(Record(cfg, t1, i), atMS, Some(Completed));
  }

  /** A step run that reached the completion step. */
  predicate IsCompletionRun(sr: StepRun) {
    sr.currentState == "AutoCycle" && sr.step == 19
  }

  /** A completing step run of the open order is recorded exactly when it has a length, carries no fault of its own, and
      its order was opened before it ends. Unlike an event it asks for the interval at its start, so an order that has
      reached the duration cap is reopened early enough to be completed. */
  lemma StepRunCompletionIsRecorded(cfg: Settings, t: State, sr: StepRun)
    requires IsCompletionRun(sr) && t.current.Some? && t.current.value.isProduction
    requires sr.orderKey != "" && t.current.value.orderKey == sr.orderKey
    ensures CompletesBy(t, Step(cfg, t, Apply(StepRunRow(sr))))
       <==> Millis(sr.started) < Millis(sr.ended) && !StepRunFaultCounts(cfg, t, sr)
            && (Overdue(cfg, t, Millis(sr.started)) || t.current.value.startedMS < Millis(sr.ended))
  {
    hide CloseInterval, EnsureInterval, Record, SameRows, SameTally, LedgerCovers;
    var i := Apply(StepRunRow(sr));
    var atMS := Millis(sr.started);
    EnsureShape(cfg, t, sr.orderKey, sr.currentState, atMS);
    var t1 := Opened(cfg, t, i);
    if Overdue(cfg, t, atMS) {
      CloseFrame(t, atMS, Some(Aborted));
    }
    CloseFrame(Record(cfg, t1, i), Millis(sr.ended), VerdictOf(cfg, t1, i));
  }

  /** The last interval queued is a faulted one, queued by this step. */
  predicate FaultedBy(t: State, s: State) {
    s.closed != t.closed && s.closed != []
    && (Last(s.closed).result == FaultedRecoverable || Last(s.closed).result == FaultedNonRecoverable)
  }

  /** A fault row that names an order is recorded exactly when that order's interval is open already, has a length, and
      has not reached the duration cap. Otherwise the interval it opens ends at the same instant, and is dropped with
      the fault in it. */
  lemma OrderFaultIsRecorded(cfg: Settings, t: State, f: Fault)
    requires f.orderKey != ""
    requires t.current.Some? ==> !Concluded(t.current.value)
                                 && (t.current.value.orderKey == f.orderKey ==> t.current.value.isProduction)
    ensures FaultedBy(t, Step(cfg, t, Apply(FaultRow(f))))
       <==> && t.current.Some? && t.current.value.orderKey == f.orderKey
            && t.current.value.startedMS < Millis(f.ts)
            && (cfg.maxIntervalMS > 0 ==> Millis(f.ts) < t.current.value.startedMS + cfg.maxIntervalMS)
  {
    hide CloseInterval, EnsureInterval, Record, SameRows, SameTally;
    var i := Apply(FaultRow(f));
    var atMS := Millis(f.ts);
    EnsureShape(cfg, t, f.orderKey, f.state, atMS);
    var forced := if Overdue(cfg, t, atMS) then Some(ForcedResult(t.current.value)) else None;
    CloseFrame(t, atMS, forced);
    var t1 := Opened(cfg, t, i);
    CloseFrame(Record(cfg, t1, i), atMS, VerdictOf(cfg, t1, i));
  }

  // ---------------------------------------------------------------------------
  // One row per order
  // ---------------------------------------------------------------------------

  /** The place of the first interval with this key. */
  ghost predicate FirstWithKey(ivs: seq<Interval>, k: nat, key: string) {
    k < |ivs| && ivs[k].orderKey == key && forall j | 0 <= j < k :: ivs[j].orderKey != key
  }

  ghost predicate OneRowEach(rows: seq<CycleRow>) {
    forall j, k | 0 <= j < k < |rows| :: rows[j].orderID != rows[k].orderID
  }

  ghost predicate IsRowOf(row: CycleRow, iv: Interval) {
    row.startedMS == iv.startedMS && row.endedMS == iv.endedMS && row.result == iv.result
    && row.durationMS == iv.endedMS - iv.startedMS && row.orderID == iv.orderKey && row.isProduction == iv.isProduction
    && row.dateUTC == Calendar.DateUTC(iv.startedMS)
  }

  /** The row is that of the first interval with its key. */
  ghost predicate FromFirstOf(row: CycleRow, ivs: seq<Interval>) {
    exists k: nat :: FirstWithKey(ivs, k, row.orderID) && IsRowOf(row, ivs[k])
  }

  ghost predicate FromFirst(rows: seq<CycleRow>, ivs: seq<Interval>) {
    forall r | 0 <= r < |rows| :: FromFirstOf(rows[r], ivs)
  }

  ghost predicate HasKey(ivs: seq<Interval>, id: string) {
    exists k :: 0 <= k < |ivs| && ivs[k].orderKey == id
  }

  lemma {:induction false} UpsertShape(rows: seq<CycleRow>, c: CycleRow)
    ensures var r := UpsertCycle(rows, c);
            && |r| == (if HasOrder(rows, c.orderID) then |rows| else |rows| + 1)
            && (forall k | 0 <= k < |rows| ::
                  r[k] == rows[k].(recipeID := r[k].recipeID, glassCount := r[k].glassCount))
            && (!HasOrder(rows, c.orderID) ==> r[|rows|] == c)
  {
    if rows == [] {
    } else if rows[0].orderID == c.orderID {
      assert HasOrder(rows, c.orderID);
    } else {
      var tail := rows[1..];
      UpsertShape(tail, c);
      assert rows == [rows[0]] + tail;
      OneOrder(tail, rows[0]);
      assert forall k | 1 <= k < |rows| :: rows[k] == tail[k - 1];
    }
  }

  lemma FirstStays(ivs: seq<Interval>, iv: Interval, k: nat, key: string)
    requires FirstWithKey(ivs, k, key)
    ensures FirstWithKey(ivs + [iv], k, key)
  {
  }

  /** However often an order is emitted, the cycles table keeps one row for it: that of its first interval. A later
      interval, completed or not, fills in no more than a missing recipe or glass count. */
  lemma {:induction false} FirstIntervalWins(ivs: seq<Interval>)
    ensures var rows := WriteCycles(CycleTable([], map[]), ivs).rows;
            && OneRowEach(rows) && FromFirst(rows, ivs)
            && forall id :: HasOrder(rows, id) <==> HasKey(ivs, id)
  {
    hide Guarded, SetMark, UpsertCycle, HasOrder, OneRowEach, FromFirst, Calendar.DateUTC;
    if ivs == [] {
      NoRows();
    } else {
      var front, iv := Front(ivs), Last(ivs);
      assert ivs == front + [iv];
      FirstIntervalWins(front);
      var d := WriteCycles(CycleTable([], map[]), front);
      var c := CycleOf(iv, Guarded(d.marks, "cycles", iv.endedMS));
      OneMoreRow(d.rows, c, front, iv);
      UpsertCounts(d.rows, c, 0, 0);
      KeysGrow(front, iv);
    }
  }

  lemma NoRows()
    ensures OneRowEach([]) && FromFirst([], []) && forall id :: !HasOrder([], id)
  {
  }

  lemma KeysGrow(ivs: seq<Interval>, iv: Interval)
    ensures forall id :: HasKey(ivs + [iv], id) <==> HasKey(ivs, id) || id == iv.orderKey
  {
    var more := ivs + [iv];
    assert more[|ivs|] == iv && forall k | 0 <= k < |ivs| :: more[k] == ivs[k];
  }

  lemma OneMoreRow(rows: seq<CycleRow>, c: CycleRow, ivs: seq<Interval>, iv: Interval)
    requires OneRowEach(rows) && FromFirst(rows, ivs) && IsRowOf(c, iv)
    requires HasOrder(rows, iv.orderKey) <==> HasKey(ivs, iv.orderKey)
    ensures OneRowEach(UpsertCycle(rows, c)) && FromFirst(UpsertCycle(rows, c), ivs + [iv])
  {
    hide UpsertCycle, FromFirstOf, HasKey, HasOrder;
    var r := UpsertCycle(rows, c);
    UpsertShape(rows, c);
    forall m | 0 <= m < |r| ensures FromFirstOf(r[m], ivs + [iv]) {
      if m < |rows| {
        RowStays(rows[m], r[m], ivs, iv);
      } else {
        FirstIsNew(ivs, iv, r[m]);
      }
    }
    if !HasOrder(rows, c.orderID) {
      NoOther(rows, c.orderID);
    }
  }

  lemma NoOther(rows: seq<CycleRow>, id: string)
    requires !HasOrder(rows, id)
    ensures forall k | 0 <= k < |rows| :: rows[k].orderID != id
  {
  }

  lemma RowStays(row: CycleRow, filled: CycleRow, ivs: seq<Interval>, iv: Interval)
    requires FromFirstOf(row, ivs) && filled == row.(recipeID := filled.recipeID, glassCount := filled.glassCount)
    ensures FromFirstOf(filled, ivs + [iv])
  {
    var k: nat :| FirstWithKey(ivs, k, row.orderID) && IsRowOf(row, ivs[k]);
    FirstStays(ivs, iv, k, row.orderID);
    assert (ivs + [iv])[k] == ivs[k];
  }

  lemma FirstIsNew(ivs: seq<Interval>, iv: Interval, c: CycleRow)
    requires !HasKey(ivs, iv.orderKey) && IsRowOf(c, iv)
    ensures FromFirstOf(c, ivs + [iv])
  {
    var more := ivs + [iv];
    assert more[|ivs|] == iv && forall k | 0 <= k < |ivs| :: more[k] == ivs[k];
    assert FirstWithKey(more, |ivs|, iv.orderKey);
  }

  // ---------------------------------------------------------------------------
  // Adding the parts up again
  // ---------------------------------------------------------------------------

  function TableTime(rows: seq<CycleRow>): int {
    if rows == [] then 0 else TableTime(Front(rows)) + Last(rows).durationMS
  }

  function EmittedTime(ivs: seq<Interval>): int {
    if ivs == [] then 0 else EmittedTime(Front(ivs)) + (Last(ivs).endedMS - Last(ivs).startedMS)
  }

  ghost predicate KeysDiffer(ivs: seq<Interval>) {
    forall j, k | 0 <= j < k < |ivs| :: ivs[j].orderKey != ivs[k].orderKey
  }

  lemma {:induction false} SameTime(a: seq<CycleRow>, b: seq<CycleRow>)
    requires |a| == |b| && forall k | 0 <= k < |a| :: a[k].durationMS == b[k].durationMS
    ensures TableTime(a) == TableTime(b)
  {
    if a != [] {
      SameTime(Front(a), Front(b));
    }
  }

  lemma UpsertTime(rows: seq<CycleRow>, c: CycleRow)
    ensures TableTime(UpsertCycle(rows, c)) == TableTime(rows) + if HasOrder(rows, c.orderID) then 0 else c.durationMS
  {
    hide UpsertCycle, HasOrder;
    var r := UpsertCycle(rows, c);
    UpsertShape(rows, c);
    if HasOrder(rows, c.orderID) {
      SameTime(r, rows);
    } else {
      SameTime(Front(r), rows);
    }
  }

  lemma KeysDifferMore(ivs: seq<Interval>, iv: Interval)
    ensures KeysDiffer(ivs + [iv])
       <==> KeysDiffer(ivs) && !HasKey(ivs, iv.orderKey)
  {
    var more := ivs + [iv];
    assert more[|ivs|] == iv && forall k | 0 <= k < |ivs| :: more[k] == ivs[k];
    if KeysDiffer(more) {
      forall k | 0 <= k < |ivs| ensures ivs[k].orderKey != iv.orderKey {
        assert more[k].orderKey != more[|ivs|].orderKey;
      }
      forall j, k | 0 <= j < k < |ivs| ensures ivs[j].orderKey != ivs[k].orderKey {
        assert more[j].orderKey != more[k].orderKey;
      }
    }
  }

  /** The durations of the cycles table add up to the machine time that was emitted exactly when no order was emitted
      twice. Splitting an order at the cap loses its later parts. */
  lemma {:induction false} PartsAddUpExactly(ivs: seq<Interval>)
    requires forall k | 0 <= k < |ivs| :: ivs[k].startedMS < ivs[k].endedMS
    ensures var total := TableTime(WriteCycles(CycleTable([], map[]), ivs).rows);
            total <= EmittedTime(ivs) && (total == EmittedTime(ivs) <==> KeysDiffer(ivs))
  {
    hide Guarded, SetMark, UpsertCycle, HasOrder, TableTime, KeysDiffer, Calendar.DateUTC;
    if ivs == [] {
      NothingAdds();
    } else {
      var front, iv := Front(ivs), Last(ivs);
      assert ivs == front + [iv];
      PartsAddUpExactly(front);
      var d := WriteCycles(CycleTable([], map[]), front);
      UpsertTime(d.rows, CycleOf(iv, Guarded(d.marks, "cycles", iv.endedMS)));
      FirstIntervalWins(front);
      KeysDifferMore(front, iv);
    }
  }

  lemma NothingAdds()
    ensures TableTime([]) == 0 && EmittedTime([]) == 0 && KeysDiffer([])
  {
  }

  /** In a base-path run only production orders are emitted twice. */
  lemma OnlyOrdersRepeat(cfg: Settings, start: int, inputs: seq<Input>, closeAt: int, i: nat, j: nat)
    requires BasePath(start, inputs) && Now(start, inputs) <= closeAt
    requires i < j < |WholeRun(cfg, inputs, closeAt).closed|
    requires WholeRun(cfg, inputs, closeAt).closed[i].orderKey == WholeRun(cfg, inputs, closeAt).closed[j].orderKey
    ensures WholeRun(cfg, inputs, closeAt).closed[i].isProduction
            || WholeRun(cfg, inputs, closeAt).closed[j].isProduction
  {
    hide WholeRun;
    var ivs := WholeRun(cfg, inputs, closeAt).closed;
    if !ivs[i].isProduction && !ivs[j].isProduction {
      SynthKeys.KeysDistinct(cfg, start, inputs, closeAt, i, j);
    }
  }
}
