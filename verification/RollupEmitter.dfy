/** Emitting the machine rows of the hour and day rollups (cmd/projector/rollup.go). */
module RollupEmitters {
  import opened Source
  import opened Calendar
  import opened Intervals
  import opened Frames
  import opened Replica
  import opened Rollups
  import opened Additivity
  import opened Buckets
  import opened StateStores
  import opened Writers
  import Text

  datatype Grain = Hour | Day

  // The day grain has no column for started orders.
  datatype RollupRow = RollupRow(eventTS: string, grain: Grain, bucketStart: int, dateUTC: string, glasses: int,
                                 started: Option<int>, completed: int, faulted: int, faultCount: int, cycleMS: int,
                                 cycleCount: int, occupancy: Occupancy)

  function Width(g: Grain): (w: int)
    ensures w > 0
  {
    if g == Hour then HOUR_MS else DAY_MS
  }

  function TableOf(g: Grain): string {
    if g == Hour then "hourly_rollups" else "daily_rollups"
  }

  function OccupancyIn(spans: seq<Stored<OutSpan>>, lo: int, hi: int): Occupancy {
    var s := SpanRows(spans);
    Occupancy(Occupied(s, RunTime, lo, hi), Occupied(s, ErrorTime, lo, hi), Occupied(s, MaintenanceTime, lo, hi),
              Occupied(s, IdleTime, lo, hi))
  }

  /** Hours count faults by window, days by date. */
  function FaultColumn(g: Grain, faults: seq<Stored<OutFault>>, b: int): int {
    if g == Hour then FaultCount(faults, b, b + HOUR_MS) else FaultCountOn(faults, DateUTC(b))
  }

  function RowOf(g: Grain, t: Tables, b: int, ts: string): RollupRow {
    var a := AggregateCycles(t.cycles, b, b + Width(g));
    RollupRow(ts, g, b, DateUTC(b), a.glasses, if g == Hour then Some(a.started) else None, a.completed, a.faulted,
              FaultColumn(g, t.faults, b), a.cycleMS, a.cycleCount, OccupancyIn(t.spans, b, b + Width(g)))
  }

  // ---------------------------------------------------------------------------
  // Several buckets
  // ---------------------------------------------------------------------------

  datatype Emission = Emission(rows: seq<RollupRow>, marks: Marks)

  function EmitBucket(g: Grain, t: Tables, e: Emission, b: int): Emission {
    var ts := Guarded(e.marks, TableOf(g), b + Width(g));
    Emission(e.rows + [RowOf(g, t, b, ts)], SetMark(e.marks, TableOf(g), ts))
  }

  function EmitBuckets(g: Grain, t: Tables, e: Emission, buckets: seq<int>): Emission {
    if buckets == [] then e else EmitBucket(g, t, EmitBuckets(g, t, e, Front(buckets)), Last(buckets))
  }

  function CursorsAfter(cursors: map<string, SourceCursor>, g: Grain, buckets: seq<int>): map<string, SourceCursor> {
    if buckets == [] then cursors else cursors[TableOf(g) := SourceCursor(0, Last(buckets))]
  }

  // ---------------------------------------------------------------------------
  // Where history starts
  // ---------------------------------------------------------------------------

  function Earlier(a: Option<int>, b: int): Option<int> {
    if a.Some? && a.value <= b then a else Some(b)
  }

  /** The smallest instant of a column, or the given one. */
  function EarliestOf(a: Option<int>, column: seq<int>): Option<int> {
    if column == [] then a else Earlier(EarliestOf(a, Front(column)), Last(column))
  }

  function Starts(t: Tables): seq<int> {
    seq(|t.cycles|, k requires 0 <= k < |t.cycles| => t.cycles[k].startedMS)
    + seq(|t.spans|, k requires 0 <= k < |t.spans| => t.spans[k].row.enteredAtMS)
    + seq(|t.faults|, k requires 0 <= k < |t.faults| => t.faults[k].row.raisedAtMS)
    + seq(|t.dwells|, k requires 0 <= k < |t.dwells| => t.dwells[k].row.startedAtMS)
  }

  /** The bucket of the earliest finished row; the first day is the one of the first hour. */
  function FirstBucket(g: Grain, t: Tables): Option<int> {
    var earliest := EarliestOf(None, Starts(t));
    if earliest.None? then None
    else
      var hour := BucketOf(earliest.value, HOUR_MS);
      Some(if g == Hour then hour else BucketOf(hour, DAY_MS))
  }

  lemma {:induction false} EarliestIsMinimum(column: seq<int>)
    ensures var e := EarliestOf(None, column);
            && (e.Some? <==> column != [])
            && (e.Some? ==> e.value in column && forall k | 0 <= k < |column| :: e.value <= column[k])
  {
    if column != [] {
      EarliestIsMinimum(Front(column));
      assert column == Front(column) + [Last(column)];
    }
  }

  /** For rows that do not start before the epoch, the first bucket is aligned and contains the earliest row; and it
      lies after the epoch, as exactly-once emission asks, exactly when no row starts in the epoch's own bucket. */
  lemma FirstBucketIsGood(g: Grain, t: Tables)
    requires forall k | 0 <= k < |Starts(t)| :: Starts(t)[k] >= 0
    ensures var f := FirstBucket(g, t);
            && (f.Some? <==> Starts(t) != [])
            && (f.Some? ==> f.value % Width(g) == 0
                            && (forall k | 0 <= k < |Starts(t)| :: f.value <= Starts(t)[k])
                            && (exists k :: 0 <= k < |Starts(t)| && Starts(t)[k] < f.value + Width(g))
                            && (f.value > 0 <==> forall k | 0 <= k < |Starts(t)| :: Starts(t)[k] >= Width(g)))
  {
    hide Starts;
    var s := Starts(t);
    EarliestIsMinimum(s);
    var e := EarliestOf(None, s);
    if e.Some? {
      var k :| 0 <= k < |s| && s[k] == e.value;
      var hour := BucketOf(e.value, HOUR_MS);
      BucketAround(e.value, HOUR_MS);
      BucketAround(hour, DAY_MS);
      assert DAY_MS == 24 * HOUR_MS;
      HourInDay(e.value, hour, BucketOf(hour, DAY_MS));
      AfterEpoch(e.value, HOUR_MS);
      AfterEpoch(e.value, DAY_MS);
      assert s[k] < FirstBucket(g, t).value + Width(g);
    }
  }

  lemma AfterEpoch(ms: int, width: int)
    requires ms >= 0 && width > 0
    ensures forall b | b % width == 0 && b <= ms < b + width :: b > 0 <==> ms >= width
  {
    forall b | b % width == 0 && b <= ms < b + width ensures b > 0 <==> ms >= width {
      assert b == (b / width) * width;
      MultipleBounds(b / width, width);
    }
  }

  lemma BucketAround(ms: int, width: int)
    requires ms >= 0 && width > 0
    ensures BucketOf(ms, width) % width == 0 && 0 <= BucketOf(ms, width) <= ms < BucketOf(ms, width) + width
  {
    var q := ms / width;
    assert ms - ms % width == q * width;
    MultipleIsAligned(q, width);
    MultipleBounds(q, width);
  }

  /** The day of an hour contains all of the hour. */
  lemma HourInDay(ms: int, hour: int, day: int)
    requires hour % HOUR_MS == 0 && day % DAY_MS == 0 && day <= hour < day + DAY_MS && hour <= ms < hour + HOUR_MS
    ensures ms < day + DAY_MS
  {
    var q, d := hour / 3_600_000, day / 86_400_000;
    assert hour == 3_600_000 * q && day + DAY_MS == 3_600_000 * (24 * (d + 1));
    NextMultiple(q, 24 * (d + 1));
  }

  lemma NextMultiple(a: int, b: int)
    requires 3_600_000 * a < 3_600_000 * b
    ensures 3_600_000 * a + 3_600_000 <= 3_600_000 * b
  {
  }

  /** The buckets a call emits, given the stored cursors. */
  function DueBuckets(g: Grain, t: Tables, cursors: map<string, SourceCursor>, upTo: int): seq<int> {
    EmittedBy(CursorOf(cursors, TableOf(g)).lastClosedMS, FirstBucket(g, t), Width(g), upTo)
  }

  /** What is stored of the rollups: the rows, and the maps their watermarks and cursors are kept in. */
  datatype Progress = Progress(emission: Emission, cursors: map<string, SourceCursor>)

  /** One bucket, and the cursor at it. */
  function OneBucket(g: Grain, t: Tables, p: Progress, b: int): Progress {
    Progress(EmitBucket(g, t, p.emission, b), p.cursors[TableOf(g) := SourceCursor(0, b)])
  }

  function AllBuckets(g: Grain, t: Tables, p: Progress, buckets: seq<int>): Progress {
    Progress(EmitBuckets(g, t, p.emission, buckets), CursorsAfter(p.cursors, g, buckets))
  }

  /** One call for one grain. */
  function GrainAfter(g: Grain, t: Tables, p: Progress, upTo: int): Progress {
    AllBuckets(g, t, p, DueBuckets(g, t, p.cursors, upTo))
  }

  /** Hours first, then days; nothing before the epoch. */
  function RollupsAfter(t: Tables, p: Progress, upTo: int): Progress {
    if upTo <= 0 then p else GrainAfter(Day, t, GrainAfter(Hour, t, p, upTo), upTo)
  }

  // ---------------------------------------------------------------------------
  // The emitter
  // ---------------------------------------------------------------------------

  class Emitter {
    const rep: Writer
    var rollups: seq<RollupRow>

    ghost function View(): Emission
      reads this, rep.st
    {
      Emission(rollups, rep.st.marks)
    }

    ghost function Stored(): Progress
      reads this, rep.st
    {
      Progress(View(), rep.st.durableCursors)
    }

    ghost function Tables(): Replica.Tables
      reads rep, rep.st
    {
      rep.View().tables
    }

    constructor (rep: Writer)
      ensures this.rep == rep && rollups == []
    {
      this.rep := rep;
      rollups := [];
    }

    /** earliestBucket, and the day of it */
    method EarliestBucket(g: Grain) returns (b: Option<int>)
      ensures b == FirstBucket(g, Tables())
    {
      var t := Replica.Tables(rep.cycles, rep.spans, rep.dwells, rep.faults, rep.toggles, rep.doors, rep.configs);
      b := FirstBucket(g, t);
    }

    method Emit(g: Grain, b: int)
      requires rep.st.Valid()
      modifies this`rollups, rep.st`marks, rep.st`durableMarks
      ensures rep.st.Valid() && View() == EmitBucket(g, Tables(), old(View()), b)
    {
      hide Guarded, SetMark, DateUTC, AggregateCycles, FaultCount, FaultCountOn, Occupied, SpanRows;
      var end := b + Width(g);
      var a := AggregateCycles(rep.cycles, b, end);
      var o := StateOccupancy(SpanRows(rep.spans), b, end);
      assert o == OccupancyIn(rep.spans, b, end) by {
        assert Value(o, RunTime) == o.run && Value(o, ErrorTime) == o.errored
               && Value(o, MaintenanceTime) == o.maintenance && Value(o, IdleTime) == o.idle;
      }
      var faultCount := FaultColumn(g, rep.faults, b);
      var ts := rep.Guard(TableOf(g), end);
      rollups := rollups + [RollupRow(ts, g, b, DateUTC(b), a.glasses, if g == Hour then Some(a.started) else None,
                                      a.completed, a.faulted, faultCount, a.cycleMS, a.cycleCount, o)];
      rep.st.SetWatermark(TableOf(g), ts);
    }

    method EmitAndAdvance(g: Grain, b: int)
      requires rep.st.Valid()
      modifies this`rollups, rep.st`marks, rep.st`durableMarks, rep.st`durableCursors
      ensures rep.st.Valid() && Stored() == OneBucket(g, Tables(), old(Stored()), b)
    {
      hide EmitBucket;
      Emit(g, b);
      rep.st.SetCursor(TableOf(g), 0, b);
    }

    /** emitHourly and emitDaily: bucket after bucket from the cursor on, as long as they end by the bound. */
    method EmitGrain(g: Grain, upTo: int)
      requires rep.st.Valid()
      modifies this`rollups, rep.st`marks, rep.st`durableMarks, rep.st`durableCursors
      ensures rep.st.Valid() && Stored() == GrainAfter(g, Tables(), old(Stored()), upTo)
    {
      hide EmitBucket, FirstBucket, CursorOf;
      var cursor := rep.st.Cursor(TableOf(g));
      var b := cursor.lastClosedMS + Width(g);
      if cursor.lastClosedMS == 0 {
        var first := EarliestBucket(g);
        if first.None? {
          return;
        }
        b := first.value;
      }
      EmitFrom(g, b, upTo);
    }

    method EmitFrom(g: Grain, first: int, upTo: int)
      requires rep.st.Valid()
      modifies this`rollups, rep.st`marks, rep.st`durableMarks, rep.st`durableCursors
      ensures rep.st.Valid()
      ensures Stored() == AllBuckets(g, Tables(), old(Stored()), Series(first, Width(g), upTo))
    {
      hide OneBucket, AllBuckets, Series, Width, Stored;
      var b := first;
      ghost var done: seq<int> := [];
      NothingDone(g, Tables(), Stored());
      while b + Width(g) <= upTo
        invariant rep.st.Valid()
        invariant Series(first, Width(g), upTo) == done + Series(b, Width(g), upTo)
        invariant Stored() == AllBuckets(g, Tables(), old(Stored()), done)
        decreases upTo - b
      {
        EmitAndAdvance(g, b);
        OneMore(g, Tables(), old(Stored()), done, b);
        NextOfSeries(done, b, Width(g), upTo);
        done := done + [b];
        b := b + Width(g);
      }
      EndOfSeries(done, b, Width(g), upTo);
    }

    /** emitDerived, without the clean-in-place runs */
    method EmitDerived(upTo: int)
      requires rep.st.Valid()
      modifies this`rollups, rep.st`marks, rep.st`durableMarks, rep.st`durableCursors
      ensures rep.st.Valid() && Stored() == RollupsAfter(Tables(), old(Stored()), upTo)
    {
      if upTo <= 0 {
        return;
      }
      hide GrainAfter;
      EmitGrain(Hour, upTo);
      EmitGrain(Day, upTo);
    }
  }

  lemma NothingDone(g: Grain, t: Replica.Tables, p: Progress)
    ensures AllBuckets(g, t, p, []) == p
  {
  }

  lemma OneMore(g: Grain, t: Replica.Tables, p: Progress, done: seq<int>, b: int)
    ensures AllBuckets(g, t, p, done + [b]) == OneBucket(g, t, AllBuckets(g, t, p, done), b)
  {
    hide EmitBucket;
    assert Front(done + [b]) == done && Last(done + [b]) == b;
  }

  lemma NextOfSeries(done: seq<int>, b: int, width: int, upTo: int)
    requires width > 0 && b + width <= upTo
    ensures done + Series(b, width, upTo) == (done + [b]) + Series(b + width, width, upTo)
  {
    assert done + ([b] + Series(b + width, width, upTo)) == (done + [b]) + Series(b + width, width, upTo);
  }

  lemma EndOfSeries(done: seq<int>, b: int, width: int, upTo: int)
    requires width > 0 && upTo < b + width
    ensures done + Series(b, width, upTo) == done
  {
    assert done + [] == done;
  }

  // ---------------------------------------------------------------------------
  // Any number of calls, over tables that may change from call to call
  // ---------------------------------------------------------------------------

  datatype Round = Round(t: Replica.Tables, upTo: int)

  function Calls(g: Grain, rounds: seq<Round>): seq<Call> {
    Mapped((r: Round) => Call(FirstBucket(g, r.t), r.upTo), rounds)
  }

  /** The rows and cursors after all rounds. */
  function AfterRounds(g: Grain, rounds: seq<Round>): Progress {
    if rounds == [] then Progress(Emission([], map[]), map[])
    else
      GrainAfter(g, Last(rounds).t, AfterRounds(g, Front(rounds)), Last(rounds).upTo)
  }

  function StoredCursor(g: Grain, p: Progress): int {
    CursorOf(p.cursors, TableOf(g)).lastClosedMS
  }

  function BucketStarts(rows: seq<RollupRow>): seq<int> {
    seq(|rows|, k requires 0 <= k < |rows| => rows[k].bucketStart)
  }

  lemma {:induction false} RowPerBucket(g: Grain, t: Replica.Tables, e: Emission, buckets: seq<int>)
    ensures BucketStarts(EmitBuckets(g, t, e, buckets).rows) == BucketStarts(e.rows) + buckets
  {
    hide Guarded, SetMark, AggregateCycles, OccupancyIn, FaultColumn, DateUTC;
    if buckets == [] {
      assert BucketStarts(e.rows) + [] == BucketStarts(e.rows);
    } else {
      RowPerBucket(g, t, e, Front(buckets));
      var f, b := EmitBuckets(g, t, e, Front(buckets)), Last(buckets);
      var row := RowOf(g, t, b, Guarded(f.marks, TableOf(g), b + Width(g)));
      assert EmitBuckets(g, t, e, buckets).rows == f.rows + [row];
      assert BucketStarts(f.rows + [row]) == BucketStarts(f.rows) + [b];
      assert BucketStarts(e.rows) + buckets == (BucketStarts(e.rows) + Front(buckets)) + [b];
    }
  }

  lemma {:induction false} RowsFollowLog(g: Grain, rounds: seq<Round>)
    ensures BucketStarts(AfterRounds(g, rounds).emission.rows) == LogOf(Width(g), Calls(g, rounds))
    ensures StoredCursor(g, AfterRounds(g, rounds)) == Buckets.CursorAfterCalls(Width(g), Calls(g, rounds))
  {
    hide EmitBuckets, EmittedBy, FirstBucket, Width;
    if rounds != [] {
      RowsFollowLog(g, Front(rounds));
      var p, r := AfterRounds(g, Front(rounds)), Last(rounds);
      var due := EmittedBy(StoredCursor(g, p), FirstBucket(g, r.t), Width(g), r.upTo);
      RowPerBucket(g, r.t, p.emission, due);
      assert Front(Calls(g, rounds)) == Calls(g, Front(rounds));
      assert Last(Calls(g, rounds)) == Call(FirstBucket(g, r.t), r.upTo);
    }
  }

  /** Rows in the order of their emit timestamps, none ahead of the watermark. */
  ghost predicate Guarding(g: Grain, e: Emission) {
    && (forall k | 0 <= k < |e.rows| :: Text.LexLe(e.rows[k].eventTS, MarkOf(e.marks, TableOf(g))))
    && (forall j, k | 0 <= j < k < |e.rows| :: Text.LexLe(e.rows[j].eventTS, e.rows[k].eventTS))
  }

  lemma GuardedMark(marks: Marks, table: string, ms: int)
    ensures var ts := Guarded(marks, table, ms);
            MarkOf(SetMark(marks, table, ts), table) == ts && Text.LexLe(MarkOf(marks, table), ts)
  {
    hide EventTS, Text.LexLess, MarkOf;
    GuardIsMax(marks, table, ms);
    MarkIsMax(Store(marks, marks), table, Guarded(marks, table, ms), table);
    MaxIdempotent(MarkOf(marks, table), EventTS(ms));
    LexLeMax(MarkOf(marks, table), EventTS(ms));
  }

  lemma BucketKeepsGuard(g: Grain, t: Replica.Tables, e: Emission, b: int)
    requires Guarding(g, e)
    ensures Guarding(g, EmitBucket(g, t, e, b))
  {
    hide Text.LexLess, MarkOf, RowOf, Guarded, SetMark;
    var ts := Guarded(e.marks, TableOf(g), b + Width(g));
    GuardedMark(e.marks, TableOf(g), b + Width(g));
    var column := seq(|e.rows|, k requires 0 <= k < |e.rows| => e.rows[k].eventTS);
    StillBelow(column, MarkOf(e.marks, TableOf(g)), ts);
    RowTS(g, t, b, ts);
    var r := EmitBucket(g, t, e, b);
    assert r.rows == e.rows + [RowOf(g, t, b, ts)] && MarkOf(r.marks, TableOf(g)) == ts;
    forall k | 0 <= k < |r.rows| ensures Text.LexLe(r.rows[k].eventTS, ts) {
      assert k < |e.rows| ==> column[k] == r.rows[k].eventTS;
    }
  }

  lemma RowTS(g: Grain, t: Replica.Tables, b: int, ts: string)
    ensures RowOf(g, t, b, ts).eventTS == ts
  {
  }

  lemma {:induction false} BucketsKeepGuard(g: Grain, t: Replica.Tables, e: Emission, buckets: seq<int>)
    requires Guarding(g, e)
    ensures Guarding(g, EmitBuckets(g, t, e, buckets))
  {
    hide EmitBucket, Guarding;
    if buckets != [] {
      BucketsKeepGuard(g, t, e, Front(buckets));
      BucketKeepsGuard(g, t, EmitBuckets(g, t, e, Front(buckets)), Last(buckets));
    }
  }

  lemma {:induction false} RoundsKeepGuard(g: Grain, rounds: seq<Round>)
    ensures Guarding(g, AfterRounds(g, rounds).emission)
  {
    hide EmitBuckets, DueBuckets, CursorsAfter;
    if rounds != [] {
      RoundsKeepGuard(g, Front(rounds));
      var p, r := AfterRounds(g, Front(rounds)), Last(rounds);
      BucketsKeepGuard(g, r.t, p.emission, DueBuckets(g, r.t, p.cursors, r.upTo));
    }
  }

  /** Whatever the rounds' bounds and however the tables grow, as long as no row starts in the epoch's own bucket: the
      rollup rows of a grain are for aligned, consecutive buckets, no bucket has two rows, and their emit timestamps
      never step back. */
  lemma OneRowPerBucket(g: Grain, rounds: seq<Round>)
    requires forall k, i | 0 <= k < |rounds| && 0 <= i < |Starts(rounds[k].t)| :: Starts(rounds[k].t)[i] >= Width(g)
    ensures var rows := AfterRounds(g, rounds).emission.rows;
            && Successive(BucketStarts(rows), Width(g)) && EachOnce(BucketStarts(rows))
            && forall j, k | 0 <= j < k < |rows| :: Text.LexLe(rows[j].eventTS, rows[k].eventTS)
  {
    hide Starts, FirstBucket, LogOf, AfterRounds, Width, Text.LexLe;
    RowsFollowLog(g, rounds);
    RoundsKeepGuard(g, rounds);
    forall k | 0 <= k < |rounds|
      ensures var f := FirstBucket(g, rounds[k].t); f.Some? ==> f.value > 0 && f.value % Width(g) == 0
    {
      FirstBucketIsGood(g, rounds[k].t);
    }
    BucketsOnce(Width(g), Calls(g, rounds));
  }

  // ---------------------------------------------------------------------------
  // Day rows and hour rows
  // ---------------------------------------------------------------------------

  /** The measures a machine row has a column for in both grains. */
  predicate OnRow(m: Measure) {
    !m.FaultsOfType? && !m.StepOccurrences? && !m.StepDuration?
  }

  function Cell(r: RollupRow, m: Measure): int
    requires OnRow(m)
  {
    match m
    case GlassCount => r.glasses
    case OrdersStarted => r.cycleCount
    case OrdersCompleted => r.completed
    case OrdersFaulted => r.faulted
    case CycleMS => r.cycleMS
    case FaultsRaised => r.faultCount
    case StateTime(c) => Value(r.occupancy, c)
  }

  lemma CellIsMeasure(g: Grain, t: Replica.Tables, b: int, ts: string, m: Measure)
    requires OnRow(m)
    requires g == Day ==> Dated(t.faults) && b % DAY_MS == 0 && FourDigitYear(b)
    ensures Cell(RowOf(g, t, b, ts), m) == Measured(t, m, b, b + Width(g))
  {
    hide Dated, DateUTC, WindowSum, Occupied, SpanRows, FaultCount, FaultCountOn;
    if g == Day {
      DateIsWindow(t.faults, b);
    }
  }

  /** A column added up over the rows of the first n hours of a day. */
  function HourTotal(t: Replica.Tables, day: int, n: nat, m: Measure): int
    requires OnRow(m)
  {
    if n == 0 then 0 else HourTotal(t, day, n - 1, m) + Cell(RowOf(Hour, t, day + (n - 1) * HOUR_MS, ""), m)
  }

  lemma {:induction false} TotalIsSum(t: Replica.Tables, day: int, n: nat, m: Measure)
    requires OnRow(m)
    ensures HourTotal(t, day, n, m) == HourSum(t, m, day, n)
  {
    hide RowOf, Measured, Cell;
    if n > 0 {
      TotalIsSum(t, day, n - 1, m);
      CellIsMeasure(Hour, t, day + (n - 1) * HOUR_MS, "", m);
      assert day + (n - 1) * HOUR_MS + Width(Hour) == day + n * HOUR_MS;
    }
  }

  /** Over fixed tables each column of a day's row is the sum of that column over the rows of its 24 hours. */
  lemma DayRowIsSumOfHourRows(t: Replica.Tables, day: int, ts: string, m: Measure)
    requires OnRow(m) && Dated(t.faults) && day % DAY_MS == 0 && FourDigitYear(day)
    ensures Cell(RowOf(Day, t, day, ts), m) == HourTotal(t, day, 24, m)
  {
    hide Dated, HourSum, HourTotal, RowOf, Cell, Measured;
    CellIsMeasure(Day, t, day, ts, m);
    DayIsSumOfHours(t, m, StepKey(Crusher, "", None), day);
    TotalIsSum(t, day, 24, m);
  }
}
