/** Hours add up to days (cmd/projector/rollup.go): every day measure is the sum, or the maximum, of its 24 hours. */
module Additivity {
  import opened Source
  import opened Calendar
  import opened Intervals
  import opened Frames
  import opened Replica
  import opened Rollups

  // ---------------------------------------------------------------------------
  // The measures, as functions of a half-open window
  // ---------------------------------------------------------------------------

  /** The weights of the rows whose instant lies in [lo, hi). */
  function WindowSum<T>(s: seq<T>, at: T -> int, weight: T -> int, lo: int, hi: int): int {
    if s == [] then 0
    else WindowSum(Front(s), at, weight, lo, hi) + if lo <= at(Last(s)) < hi then weight(Last(s)) else 0
  }

  function CycleStart(c: CycleRow): int {
    c.startedMS
  }

  function Glasses(c: CycleRow): int {
    if c.isProduction && c.result == Completed && c.glassCount.Some? then c.glassCount.value else 0
  }

  function Started(c: CycleRow): int {
    if c.isProduction then 1 else 0
  }

  function CompletedOne(c: CycleRow): int {
    if c.isProduction && c.result == Completed then 1 else 0
  }

  function FaultedOne(c: CycleRow): int {
    if c.isProduction && (c.result == FaultedRecoverable || c.result == FaultedNonRecoverable) then 1 else 0
  }

  function CycleTime(c: CycleRow): int {
    if c.isProduction then c.durationMS else 0
  }

  datatype CycleAgg = CycleAgg(glasses: int, started: int, completed: int, faulted: int, cycleMS: int, cycleCount: int)

  /** The production cycles that started in the window. */
  function AggregateCycles(cycles: seq<CycleRow>, lo: int, hi: int): CycleAgg {
    CycleAgg(WindowSum(cycles, CycleStart, Glasses, lo, hi), WindowSum(cycles, CycleStart, Started, lo, hi),
             WindowSum(cycles, CycleStart, CompletedOne, lo, hi), WindowSum(cycles, CycleStart, FaultedOne, lo, hi),
             WindowSum(cycles, CycleStart, CycleTime, lo, hi), WindowSum(cycles, CycleStart, Started, lo, hi))
  }

  function Raised(f: Stored<OutFault>): int {
    f.row.raisedAtMS
  }

  function One(f: Stored<OutFault>): int {
    1
  }

  function OneOfType(faultType: string): Stored<OutFault> -> int {
    (f: Stored<OutFault>) => if f.row.faultType == faultType then 1 else 0
  }

  function FaultCount(faults: seq<Stored<OutFault>>, lo: int, hi: int): int {
    WindowSum(faults, Raised, One, lo, hi)
  }

  function FaultTypeCount(faults: seq<Stored<OutFault>>, faultType: string, lo: int, hi: int): int {
    WindowSum(faults, Raised, OneOfType(faultType), lo, hi)
  }

  /** The day's fault count is selected by date, not by window. */
  function FaultCountOn(faults: seq<Stored<OutFault>>, date: string): int {
    if faults == [] then 0 else FaultCountOn(Front(faults), date) + if Last(faults).dateUTC == date then 1 else 0
  }

  datatype StepKey = StepKey(lane: Lane, state: string, step: Option<int>)

  function KeyOfDwell(d: Stored<OutDwell>): StepKey {
    StepKey(d.row.lane, d.row.state, d.row.step)
  }

  function DwellStart(d: Stored<OutDwell>): int {
    d.row.startedAtMS
  }

  function OneOfStep(key: StepKey): Stored<OutDwell> -> int {
    (d: Stored<OutDwell>) => if KeyOfDwell(d) == key then 1 else 0
  }

  function TimeOfStep(key: StepKey): Stored<OutDwell> -> int {
    (d: Stored<OutDwell>) => if KeyOfDwell(d) == key then d.row.durationMS else 0
  }

  function StepCount(dwells: seq<Stored<OutDwell>>, key: StepKey, lo: int, hi: int): int {
    WindowSum(dwells, DwellStart, OneOfStep(key), lo, hi)
  }

  function StepTime(dwells: seq<Stored<OutDwell>>, key: StepKey, lo: int, hi: int): int {
    WindowSum(dwells, DwellStart, TimeOfStep(key), lo, hi)
  }

  function Larger(a: Option<int>, b: Option<int>): Option<int> {
    if a.None? then b else if b.None? || b.value <= a.value then a else b
  }

  /** The longest dwell of a step that started in the window; none when there is no such dwell. */
  function StepMax(dwells: seq<Stored<OutDwell>>, key: StepKey, lo: int, hi: int): Option<int> {
    if dwells == [] then None
    else
      var d := Last(dwells);
      Larger(StepMax(Front(dwells), key, lo, hi),
             if lo <= DwellStart(d) < hi && KeyOfDwell(d) == key then Some(d.row.durationMS) else None)
  }

  /** The measures of the rollup rows that are sums. */
  datatype Measure =
    | GlassCount | OrdersStarted | OrdersCompleted | OrdersFaulted | CycleMS
    | FaultsRaised | FaultsOfType(faultType: string)
    | StepOccurrences(key: StepKey) | StepDuration(key: StepKey)
    | StateTime(column: Column)

  function SpanRows(spans: seq<Stored<OutSpan>>): seq<OutSpan> {
    Mapped((s: Stored<OutSpan>) => s.row, spans)
  }

  function Measured(t: Tables, m: Measure, lo: int, hi: int): int {
    match m
    case GlassCount => AggregateCycles(t.cycles, lo, hi).glasses
    case OrdersStarted => AggregateCycles(t.cycles, lo, hi).started
    case OrdersCompleted => AggregateCycles(t.cycles, lo, hi).completed
    case OrdersFaulted => AggregateCycles(t.cycles, lo, hi).faulted
    case CycleMS => AggregateCycles(t.cycles, lo, hi).cycleMS
    case FaultsRaised => FaultCount(t.faults, lo, hi)
    case FaultsOfType(k) => FaultTypeCount(t.faults, k, lo, hi)
    case StepOccurrences(key) => StepCount(t.dwells, key, lo, hi)
    case StepDuration(key) => StepTime(t.dwells, key, lo, hi)
    case StateTime(c) => Occupied(SpanRows(t.spans), c, lo, hi)
  }

  // ---------------------------------------------------------------------------
  // Windows that meet
  // ---------------------------------------------------------------------------

  lemma {:induction false} WindowAdds<T>(s: seq<T>, at: T -> int, weight: T -> int, lo: int, mid: int, hi: int)
    requires lo <= mid <= hi
    ensures WindowSum(s, at, weight, lo, hi) == WindowSum(s, at, weight, lo, mid) + WindowSum(s, at, weight, mid, hi)
    ensures WindowSum(s, at, weight, mid, mid) == 0
  {
    if s != [] {
      WindowAdds(Front(s), at, weight, lo, mid, hi);
    }
  }

  lemma {:induction false} OccupiedAdds(spans: seq<OutSpan>, c: Column, lo: int, mid: int, hi: int)
    requires lo <= mid <= hi
    ensures Occupied(spans, c, lo, hi) == Occupied(spans, c, lo, mid) + Occupied(spans, c, mid, hi)
    ensures Occupied(spans, c, mid, mid) == 0
  {
    hide ColumnOf;
    if spans != [] {
      OccupiedAdds(Front(spans), c, lo, mid, hi);
    }
  }

  /** Every measure of two windows that meet adds up. */
  lemma MeasuresAdd(t: Tables, m: Measure, lo: int, mid: int, hi: int)
    requires lo <= mid <= hi
    ensures Measured(t, m, lo, hi) == Measured(t, m, lo, mid) + Measured(t, m, mid, hi)
    ensures Measured(t, m, mid, mid) == 0
  {
    hide WindowSum, Occupied, SpanRows;
    match m {
      case GlassCount => WindowAdds(t.cycles, CycleStart, Glasses, lo, mid, hi);
      case OrdersStarted => WindowAdds(t.cycles, CycleStart, Started, lo, mid, hi);
      case OrdersCompleted => WindowAdds(t.cycles, CycleStart, CompletedOne, lo, mid, hi);
      case OrdersFaulted => WindowAdds(t.cycles, CycleStart, FaultedOne, lo, mid, hi);
      case CycleMS => WindowAdds(t.cycles, CycleStart, CycleTime, lo, mid, hi);
      case FaultsRaised => WindowAdds(t.faults, Raised, One, lo, mid, hi);
      case FaultsOfType(k) => WindowAdds(t.faults, Raised, OneOfType(k), lo, mid, hi);
      case StepOccurrences(key) => WindowAdds(t.dwells, DwellStart, OneOfStep(key), lo, mid, hi);
      case StepDuration(key) => WindowAdds(t.dwells, DwellStart, TimeOfStep(key), lo, mid, hi);
      case StateTime(c) => OccupiedAdds(SpanRows(t.spans), c, lo, mid, hi);
    }
  }

  /** The sum of a measure over the first n hours of a day. */
  function HourSum(t: Tables, m: Measure, day: int, n: nat): int {
    if n == 0 then 0 else HourSum(t, m, day, n - 1) + Measured(t, m, day + (n - 1) * HOUR_MS, day + n * HOUR_MS)
  }

  lemma {:induction false} HoursAddUp(t: Tables, m: Measure, day: int, n: nat)
    ensures HourSum(t, m, day, n) == Measured(t, m, day, day + n * HOUR_MS)
  {
    hide Measured;
    if n == 0 {
      MeasuresAdd(t, m, day, day, day);
    } else {
      HoursAddUp(t, m, day, n - 1);
      MeasuresAdd(t, m, day, day + (n - 1) * HOUR_MS, day + n * HOUR_MS);
    }
  }

  lemma {:induction false} MaxJoins(dwells: seq<Stored<OutDwell>>, key: StepKey, lo: int, mid: int, hi: int)
    requires lo <= mid <= hi
    ensures StepMax(dwells, key, lo, hi) == Larger(StepMax(dwells, key, lo, mid), StepMax(dwells, key, mid, hi))
    ensures StepMax(dwells, key, mid, mid) == None
  {
    if dwells != [] {
      MaxJoins(Front(dwells), key, lo, mid, hi);
    }
  }

  function HourMax(dwells: seq<Stored<OutDwell>>, key: StepKey, day: int, n: nat): Option<int> {
    if n == 0 then None
    else Larger(HourMax(dwells, key, day, n - 1), StepMax(dwells, key, day + (n - 1) * HOUR_MS, day + n * HOUR_MS))
  }

  lemma {:induction false} HoursMaxUp(dwells: seq<Stored<OutDwell>>, key: StepKey, day: int, n: nat)
    ensures HourMax(dwells, key, day, n) == StepMax(dwells, key, day, day + n * HOUR_MS)
  {
    if n == 0 {
      MaxJoins(dwells, key, day, day, day);
    } else {
      HoursMaxUp(dwells, key, day, n - 1);
      MaxJoins(dwells, key, day, day + (n - 1) * HOUR_MS, day + n * HOUR_MS);
    }
  }

  // ---------------------------------------------------------------------------
  // Faults by date
  // ---------------------------------------------------------------------------

  /** Faults stored with the date of the instant they were raised at. */
  ghost predicate Dated(faults: seq<Stored<OutFault>>) {
    forall k | 0 <= k < |faults| ::
      FourDigitYear(faults[k].row.raisedAtMS) && faults[k].dateUTC == DateUTC(faults[k].row.raisedAtMS)
  }

  lemma {:induction false} DateIsWindow(faults: seq<Stored<OutFault>>, day: int)
    requires Dated(faults) && day % DAY_MS == 0 && FourDigitYear(day)
    ensures FaultCountOn(faults, DateUTC(day)) == FaultCount(faults, day, day + DAY_MS)
  {
    hide DateUTC;
    if faults != [] {
      var f := Last(faults);
      DateIsWindow(Front(faults), day);
      DateUTCIsTheDay(f.row.raisedAtMS, day);
      SameDayIsWindow(f.row.raisedAtMS, day);
    }
  }

  lemma SameDayIsWindow(ms: int, day: int)
    requires day % DAY_MS == 0
    ensures ms / DAY_MS == day / DAY_MS <==> day <= ms < day + DAY_MS
  {
  }

  // ---------------------------------------------------------------------------
  // Main result
  // ---------------------------------------------------------------------------

  /** Over fixed tables every day measure is the sum of the same measure over the day's 24 hours, the longest dwell
      of a day the longest of its hours, and the fault count selected by date the sum of the hourly counts. */
  lemma DayIsSumOfHours(t: Tables, m: Measure, key: StepKey, day: int)
    ensures Measured(t, m, day, day + DAY_MS) == HourSum(t, m, day, 24)
    ensures StepMax(t.dwells, key, day, day + DAY_MS) == HourMax(t.dwells, key, day, 24)
    ensures Dated(t.faults) && day % DAY_MS == 0 && FourDigitYear(day) ==>
              FaultCountOn(t.faults, DateUTC(day)) == HourSum(t, FaultsRaised, day, 24)
  {
    hide HourSum, HourMax, StepMax, DateUTC, Dated;
    HoursAddUp(t, m, day, 24);
    HoursMaxUp(t.dwells, key, day, 24);
    if Dated(t.faults) && day % DAY_MS == 0 && FourDigitYear(day) {
      DateIsWindow(t.faults, day);
      HoursAddUp(t, FaultsRaised, day, 24);
    }
  }
}
