/** The replica's tables and watermarks, and what writing an interval makes of them
    (cmd/projector/writer.go, cmd/projector/state.go). */
module Replica {
  import opened Source
  import opened Text
  import opened Calendar
  import opened Intervals
  import opened Frames

  /** A child row with the columns the writer stamps on it. */
  datatype Stored<T> = Stored(eventTS: string, dateUTC: string, row: T)

  datatype CycleRow = CycleRow(eventTS: string, dateUTC: string, orderID: string, isProduction: bool, result: Result,
                               startedMS: int, endedMS: int, durationMS: int, recipeID: Option<int>,
                               glassCount: Option<int>)

  type Marks = map<string, string>

  datatype Tables = Tables(cycles: seq<CycleRow>, spans: seq<Stored<OutSpan>>, dwells: seq<Stored<OutDwell>>,
                           faults: seq<Stored<OutFault>>, toggles: seq<Stored<OutToggle>>,
                           doors: seq<Stored<OutDoor>>, configs: seq<Stored<OutConfig>>)

  // ---------------------------------------------------------------------------
  // Watermarks
  // ---------------------------------------------------------------------------

  /** The watermark of a table, "" when there is none. */
  function MarkOf(marks: Marks, table: string): string {
    if table in marks then marks[table] else ""
  }

  /** A watermark only moves forward. */
  function SetMark(marks: Marks, table: string, ts: string): Marks {
    if table in marks && LexLe(ts, marks[table]) then marks else marks[table := ts]
  }

  /** The emit timestamp for an instant, clamped forward to the watermark. */
  function Guarded(marks: Marks, table: string, ms: int): string {
    var ts, last := EventTS(ms), MarkOf(marks, table);
    if last != "" && LexLess(ts, last) then last else ts
  }

  // ---------------------------------------------------------------------------
  // Rows
  // ---------------------------------------------------------------------------

  function CycleOf(iv: Interval, ts: string): CycleRow {
    CycleRow(ts, DateUTC(iv.startedMS), iv.orderKey, iv.isProduction, iv.result, iv.startedMS, iv.endedMS,
             iv.endedMS - iv.startedMS, iv.recipeID, iv.glassCount)
  }

  function StoreSpan(s: OutSpan): Stored<OutSpan> {
    Stored(EventTS(s.exitedAtMS), DateUTC(s.enteredAtMS), s)
  }

  function StoreDwell(d: OutDwell): Stored<OutDwell> {
    Stored(EventTS(d.endedAtMS), DateUTC(d.startedAtMS), d)
  }

  function StoreFault(f: OutFault): Stored<OutFault> {
    Stored(EventTS(f.raisedAtMS), DateUTC(f.raisedAtMS), f)
  }

  function StoreToggle(s: OutToggle): Stored<OutToggle> {
    Stored(EventTS(s.eventAtMS), DateUTC(s.eventAtMS), s)
  }

  function StoreDoor(d: OutDoor): Stored<OutDoor> {
    Stored(EventTS(d.closedAtMS), DateUTC(d.openedAtMS), d)
  }

  function StoreConfig(c: OutConfig): Stored<OutConfig> {
    Stored(EventTS(c.changedAtMS), DateUTC(c.changedAtMS), c)
  }

  function Mapped<S, T>(f: S -> T, s: seq<S>): (r: seq<T>)
    ensures |r| == |s| && forall k | 0 <= k < |s| :: r[k] == f(s[k])
  {
    if s == [] then [] else Mapped(f, Front(s)) + [f(Last(s))]
  }

  // ---------------------------------------------------------------------------
  // Inserts with conflicts
  // ---------------------------------------------------------------------------

  function FirstOr(a: Option<int>, b: Option<int>): Option<int> {
    if a.Some? then a else b
  }

  /** An order that is present already only gets its missing recipe and glass count filled. */
  function UpsertCycle(cycles: seq<CycleRow>, c: CycleRow): seq<CycleRow> {
    if cycles == [] then [c]
    else if cycles[0].orderID == c.orderID then
      [cycles[0].(recipeID := FirstOr(cycles[0].recipeID, c.recipeID),
                  glassCount := FirstOr(cycles[0].glassCount, c.glassCount))] + cycles[1..]
    else [cycles[0]] + UpsertCycle(cycles[1..], c)
  }

  predicate HasFault(faults: seq<Stored<OutFault>>, key: string) {
    exists k | 0 <= k < |faults| :: faults[k].row.faultKey == key
  }

  /** A fault whose key is present already is not inserted again. */
  function InsertFaults(faults: seq<Stored<OutFault>>, more: seq<OutFault>): seq<Stored<OutFault>> {
    if more == [] then faults
    else
      var r := InsertFaults(faults, Front(more));
      if HasFault(r, Last(more).faultKey) then r else r + [StoreFault(Last(more))]
  }

  // ---------------------------------------------------------------------------
  // Writing an interval
  // ---------------------------------------------------------------------------

  function Written(t: Tables, iv: Interval, cycleTS: string): Tables {
    Tables(UpsertCycle(t.cycles, CycleOf(iv, cycleTS)),
           t.spans + Mapped(StoreSpan, iv.stateDurations),
           t.dwells + Mapped(StoreDwell, iv.stepDwells),
           InsertFaults(t.faults, iv.faults),
           t.toggles + Mapped(StoreToggle, iv.toggles),
           t.doors + Mapped(StoreDoor, iv.doorEvents),
           t.configs + Mapped(StoreConfig, iv.configs))
  }

  /** The largest of a timestamp and those of a sequence of instants. */
  function MaxTS(ts: string, instants: seq<int>): string {
    if instants == [] then ts else Text.Max(MaxTS(ts, Front(instants)), EventTS(Last(instants)))
  }

  const CHILD_TABLES: seq<string> :=
    ["state_durations", "step_dwells", "fault_events", "sensor_toggles", "config_history", "door_events"]

  function SetMarks(marks: Marks, tables: seq<string>, ts: string): Marks {
    if tables == [] then marks else SetMark(SetMarks(marks, Front(tables), ts), Last(tables), ts)
  }
}
