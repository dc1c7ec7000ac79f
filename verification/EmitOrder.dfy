/** The order of the rows a run leaves in the replica (cmd/projector/writer.go, cmd/projector/tracker.go). */
module EmitOrder {
  import opened Text
  import opened Calendar
  import opened Intervals
  import opened TrackerSpec
  import opened Frames
  import opened Timeline
  import opened ChildOrder
  import opened Replica
  import opened Writers
  import SynthKeys
  import Finality

  /** Emit timestamps that never step back and do not exceed `top`. */
  ghost predicate Rising(s: seq<string>, top: string) {
    (forall k | 0 <= k < |s| :: LexLe(s[k], top)) && forall j, k | 0 <= j < k < |s| :: LexLe(s[j], s[k])
  }

  function TSOf<T>(rows: seq<Stored<T>>): seq<string> {
    seq(|rows|, k requires 0 <= k < |rows| => rows[k].eventTS)
  }

  /** The emit timestamps of a child table. The raw events are not replicated. */
  function ChildTS(c: Child, t: Tables): seq<string> {
    match c
    case Spans => TSOf(t.spans)
    case Dwells => TSOf(t.dwells)
    case Faults => TSOf(t.faults)
    case Toggles => TSOf(t.toggles)
    case Doors => TSOf(t.doors)
    case Configs => TSOf(t.configs)
    case Events => []
  }

  function CycleTS(cycles: seq<CycleRow>): seq<string> {
    seq(|cycles|, k requires 0 <= k < |cycles| => cycles[k].eventTS)
  }

  function Texts(stamps: seq<int>): seq<string> {
    seq(|stamps|, k requires 0 <= k < |stamps| => EventTS(stamps[k]))
  }

  // ---------------------------------------------------------------------------
  // Instants and their texts
  // ---------------------------------------------------------------------------

  lemma TextsInOrder(a: int, b: int)
    requires FourDigitYear(a) && FourDigitYear(b) && a <= b
    ensures LexLe(EventTS(a), EventTS(b))
  {
    hide EventTS, LexLess;
    EventTSOrder(a, b);
  }

  lemma LexLeTransitive(a: string, b: string, c: string)
    requires LexLe(a, b) && LexLe(b, c)
    ensures LexLe(a, c)
  {
    if a != b && b != c {
      LexTransitive(a, b, c);
    }
  }

  lemma RisingLater(s: seq<string>, top: string, later: string)
    requires Rising(s, top) && LexLe(top, later)
    ensures Rising(s, later)
  {
    hide LexLe;
    forall k | 0 <= k < |s| ensures LexLe(s[k], later) {
      LexLeTransitive(s[k], top, later);
    }
  }

  lemma RisingJoin(s: seq<string>, t: seq<string>, mid: string, top: string)
    requires Rising(s, mid) && Rising(t, top) && LexLe(mid, top) && forall k | 0 <= k < |t| :: LexLe(mid, t[k])
    ensures Rising(s + t, top)
  {
    hide LexLe;
    RisingLater(s, mid, top);
    forall j, k | 0 <= j < |s| && 0 <= k < |t| ensures LexLe(s[j], t[k]) {
      LexLeTransitive(s[j], mid, t[k]);
    }
  }

  lemma TextsRise(stamps: seq<int>, lo: int, hi: int)
    requires InOrder(stamps, lo, hi) && FourDigitYear(lo) && FourDigitYear(hi)
    ensures Rising(Texts(stamps), EventTS(hi)) && forall k | 0 <= k < |stamps| :: LexLe(EventTS(lo), Texts(stamps)[k])
  {
    hide EventTS, LexLe;
    forall k | 0 <= k < |stamps|
      ensures LexLe(EventTS(lo), EventTS(stamps[k])) && LexLe(EventTS(stamps[k]), EventTS(hi))
    {
      TextsInOrder(lo, stamps[k]);
      TextsInOrder(stamps[k], hi);
    }
    forall j, k | 0 <= j < k < |stamps| ensures LexLe(EventTS(stamps[j]), EventTS(stamps[k])) {
      TextsInOrder(stamps[j], stamps[k]);
    }
  }

  // ---------------------------------------------------------------------------
  // One interval
  // ---------------------------------------------------------------------------

  lemma JoinTS<S, T>(rows: seq<Stored<T>>, f: S -> Stored<T>, s: seq<S>, stamps: seq<int>)
    requires |stamps| == |s| && forall k | 0 <= k < |s| :: f(s[k]).eventTS == EventTS(stamps[k])
    ensures TSOf(rows + Mapped(f, s)) == TSOf(rows) + Texts(stamps)
  {
    hide EventTS, Mapped;
  }

  /** Apart from the faults, a child table gets one row for each of the interval's rows. */
  lemma WrittenTS(t: Tables, iv: Interval, ts: string, c: Child)
    requires c != Faults && c != Events
    ensures ChildTS(c, Written(t, iv, ts)) == ChildTS(c, t) + Texts(Stamps(c, iv))
  {
    hide EventTS, DateUTC, Mapped, TSOf, Texts, UpsertCycle, InsertFaults;
    match c {
      case Spans => JoinTS(t.spans, StoreSpan, iv.stateDurations, Stamps(c, iv));
      case Dwells => JoinTS(t.dwells, StoreDwell, iv.stepDwells, Stamps(c, iv));
      case Toggles => JoinTS(t.toggles, StoreToggle, iv.toggles, Stamps(c, iv));
      case Doors => JoinTS(t.doors, StoreDoor, iv.doorEvents, Stamps(c, iv));
      case Configs => JoinTS(t.configs, StoreConfig, iv.configs, Stamps(c, iv));
    }
  }

  lemma {:induction false} FaultsRise(rows: seq<Stored<OutFault>>, s: seq<OutFault>, lo: string, hi: string,
                                      top: string)
    requires Rising(TSOf(rows), lo) && LexLe(lo, hi) && LexLe(hi, top)
    requires forall k | 0 <= k < |s| :: LexLe(lo, StoreFault(s[k]).eventTS) && LexLe(StoreFault(s[k]).eventTS, hi)
    requires forall j, k | 0 <= j < k < |s| :: LexLe(StoreFault(s[j]).eventTS, StoreFault(s[k]).eventTS)
    ensures Rising(TSOf(InsertFaults(rows, s)), top)
  {
    hide LexLe, StoreFault, HasFault, Rising;
    LexLeTransitive(lo, hi, top);
    if s == [] {
      RisingLater(TSOf(rows), lo, top);
    } else {
      var front, last := Front(s), StoreFault(Last(s));
      assert LexLe(lo, last.eventTS) && LexLe(last.eventTS, hi);
      FaultsRise(rows, front, lo, last.eventTS, last.eventTS) by {
        LexLeReflexive(last.eventTS);
      }
      LexLeTransitive(last.eventTS, hi, top);
      var r := InsertFaults(rows, front);
      RisingLater(TSOf(r), last.eventTS, top);
      OneRises(TSOf(r), last.eventTS, top);
      assert TSOf(r + [last]) == TSOf(r) + [last.eventTS];
    }
  }

  lemma LexLeReflexive(a: string)
    ensures LexLe(a, a)
  {
  }

  lemma OneRises(s: seq<string>, ts: string, top: string)
    requires Rising(s, ts) && LexLe(ts, top)
    ensures Rising(s + [ts], top)
  {
    hide LexLe;
    RisingLater(s, ts, top);
  }

  /** A child table stays in order when the rows of a later interval are written. */
  lemma ChildRises(t: Tables, iv: Interval, ts: string, c: Child, lo: int)
    requires Rising(ChildTS(c, t), EventTS(lo)) && lo <= iv.startedMS <= iv.endedMS
    requires FourDigitYear(lo) && FourDigitYear(iv.endedMS) && InOrder(Stamps(c, iv), iv.startedMS, iv.endedMS)
    ensures Rising(ChildTS(c, Written(t, iv, ts)), EventTS(iv.endedMS))
  {
    hide EventTS, LexLe, Written, Rising;
    TextsInOrder(lo, iv.endedMS);
    if c == Events {
      NothingRises(EventTS(iv.endedMS));
    } else {
      var stamps := Stamps(c, iv);
      assert InOrder(stamps, lo, iv.endedMS);
      TextsRise(stamps, lo, iv.endedMS);
      if c == Faults {
        FaultTextsRise(t, iv, ts, lo);
      } else {
        WrittenTS(t, iv, ts, c);
        RisingJoin(ChildTS(c, t), Texts(stamps), EventTS(lo), EventTS(iv.endedMS));
      }
    }
  }

  lemma NothingRises(top: string)
    ensures Rising([], top)
  {
  }

  lemma FaultTextsRise(t: Tables, iv: Interval, ts: string, lo: int)
    requires Rising(TSOf(t.faults), EventTS(lo)) && LexLe(EventTS(lo), EventTS(iv.endedMS))
    requires Rising(Texts(Stamps(Faults, iv)), EventTS(iv.endedMS))
    requires forall k | 0 <= k < |Stamps(Faults, iv)| :: LexLe(EventTS(lo), Texts(Stamps(Faults, iv))[k])
    ensures Rising(ChildTS(Faults, Written(t, iv, ts)), EventTS(iv.endedMS))
  {
    hide EventTS, DateUTC, LexLe, Mapped, UpsertCycle, InsertFaults;
    var texts := Texts(Stamps(Faults, iv));
    assert forall k | 0 <= k < |iv.faults| :: StoreFault(iv.faults[k]).eventTS == texts[k];
    LexLeReflexive(EventTS(iv.endedMS));
    FaultsRise(t.faults, iv.faults, EventTS(lo), EventTS(iv.endedMS), EventTS(iv.endedMS));
  }

  // ---------------------------------------------------------------------------
  // Watermarks and cycles
  // ---------------------------------------------------------------------------

  /** No watermark is ahead of an instant. */
  ghost predicate MarksUpTo(marks: Marks, ms: int) {
    forall table | table in marks :: LexLe(marks[table], EventTS(ms))
  }

  /** The cycles are in order and none of them was clamped. */
  ghost predicate CyclesExact(cycles: seq<CycleRow>, ms: int) {
    Rising(CycleTS(cycles), EventTS(ms))
    && forall k | 0 <= k < |cycles| :: cycles[k].eventTS == EventTS(cycles[k].endedMS)
  }

  lemma GuardIsIdle(marks: Marks, lo: int, ms: int)
    requires MarksUpTo(marks, lo) && lo <= ms && FourDigitYear(lo) && FourDigitYear(ms)
    ensures Guarded(marks, "cycles", ms) == EventTS(ms)
  {
    hide EventTS, LexLess;
    TextsInOrder(lo, ms);
    var last := MarkOf(marks, "cycles");
    if last != "" {
      LexLeTransitive(last, EventTS(lo), EventTS(ms));
      LexTrichotomy(last, EventTS(ms));
    }
  }

  lemma {:induction false} SettingMarks(marks: Marks, tables: seq<string>, ts: string, ms: int)
    requires MarksUpTo(marks, ms) && LexLe(ts, EventTS(ms))
    ensures MarksUpTo(SetMarks(marks, tables, ts), ms)
  {
    hide EventTS, LexLe;
    if tables != [] {
      SettingMarks(marks, Front(tables), ts, ms);
    }
  }

  lemma MarksLater(marks: Marks, lo: int, ms: int)
    requires MarksUpTo(marks, lo) && lo <= ms && FourDigitYear(lo) && FourDigitYear(ms)
    ensures MarksUpTo(marks, ms)
  {
    hide EventTS, LexLe;
    TextsInOrder(lo, ms);
    forall table | table in marks ensures LexLe(marks[table], EventTS(ms)) {
      LexLeTransitive(marks[table], EventTS(lo), EventTS(ms));
    }
  }

  lemma {:induction false} MaxStays(ts: string, stamps: seq<int>)
    requires forall k | 0 <= k < |stamps| :: LexLe(EventTS(stamps[k]), ts)
    ensures MaxTS(ts, stamps) == ts
  {
    hide EventTS, LexLess;
    if stamps != [] {
      MaxStays(ts, Front(stamps));
      LexTrichotomy(ts, EventTS(Last(stamps)));
      assert LexLe(EventTS(Last(stamps)), ts);
    }
  }

  /** No child is later than its cycle, so after the flush every watermark is the cycle's timestamp at most. */
  lemma NoChildIsLater(iv: Interval)
    requires Stamped(iv, iv.startedMS, iv.endedMS) && FourDigitYear(iv.startedMS) && FourDigitYear(iv.endedMS)
    ensures HighTS(iv, EventTS(iv.endedMS)) == EventTS(iv.endedMS)
    ensures forall c, k | 0 <= k < |Stamps(c, iv)| :: LexLe(EventTS(Stamps(c, iv)[k]), EventTS(iv.endedMS))
  {
    hide EventTS, LexLe, Stamps, MaxTS;
    forall c ensures forall k | 0 <= k < |Stamps(c, iv)| :: LexLe(EventTS(Stamps(c, iv)[k]), EventTS(iv.endedMS)) {
      assert InOrder(Stamps(c, iv), iv.startedMS, iv.endedMS);
      TextsRise(Stamps(c, iv), iv.startedMS, iv.endedMS);
      assert forall k | 0 <= k < |Stamps(c, iv)| :: Texts(Stamps(c, iv))[k] == EventTS(Stamps(c, iv)[k]);
    }
    forall c ensures MaxTS(EventTS(iv.endedMS), Stamps(c, iv)) == EventTS(iv.endedMS) {
      MaxStays(EventTS(iv.endedMS), Stamps(c, iv));
    }
  }

  lemma {:induction false} UpsertTS(cycles: seq<CycleRow>, c: CycleRow)
    ensures var r := UpsertCycle(cycles, c);
            && (CycleTS(r) == CycleTS(cycles) || CycleTS(r) == CycleTS(cycles) + [c.eventTS])
            && forall k | 0 <= k < |r| ::
                 (k < |cycles| ==> r[k].eventTS == cycles[k].eventTS && r[k].endedMS == cycles[k].endedMS)
                 && (k >= |cycles| ==> r[k] == c)
  {
    if cycles != [] && cycles[0].orderID != c.orderID {
      UpsertTS(cycles[1..], c);
      var r := UpsertCycle(cycles[1..], c);
      assert UpsertCycle(cycles, c) == [cycles[0]] + r;
      assert forall k | 1 <= k < |cycles| :: cycles[k] == cycles[1..][k - 1];
    }
  }

  lemma CyclesRise(cycles: seq<CycleRow>, iv: Interval, lo: int)
    requires CyclesExact(cycles, lo) && LexLe(EventTS(lo), EventTS(iv.endedMS))
    ensures CyclesExact(UpsertCycle(cycles, CycleOf(iv, EventTS(iv.endedMS))), iv.endedMS)
  {
    hide EventTS, DateUTC, LexLe, Rising, UpsertCycle;
    var ts := EventTS(iv.endedMS);
    var c := CycleOf(iv, ts);
    UpsertTS(cycles, c);
    RisingLater(CycleTS(cycles), EventTS(lo), ts);
    LexLeReflexive(ts);
    OneRises(CycleTS(cycles), ts, ts);
  }

  // ---------------------------------------------------------------------------
  // All intervals
  // ---------------------------------------------------------------------------

  /** Everything in the replica is in order and not ahead of an instant. */
  ghost predicate InStep(c: Copy, ms: int) {
    && MarksUpTo(c.marks, ms) && CyclesExact(c.tables.cycles, ms)
    && forall ch :: Rising(ChildTS(ch, c.tables), EventTS(ms))
  }

  lemma WriteKeepsStep(c: Copy, iv: Interval, lo: int)
    requires InStep(c, lo) && lo <= iv.startedMS <= iv.endedMS && Stamped(iv, iv.startedMS, iv.endedMS)
    requires FourDigitYear(lo) && FourDigitYear(iv.endedMS)
    ensures InStep(WriteInterval(c, iv), iv.endedMS)
  {
    hide EventTS, LexLess, Rising, CyclesExact, MarksUpTo, ChildTS, Stamps, SetMarks, HighTS, UpsertCycle, InOrder,
      Guarded, CycleOf;
    var ts := EventTS(iv.endedMS);
    TextsInOrder(lo, iv.endedMS);
    GuardIsIdle(c.marks, lo, iv.endedMS);
    CyclesRise(c.tables.cycles, iv, lo);
    forall ch ensures Rising(ChildTS(ch, Written(c.tables, iv, ts)), ts) {
      assert InOrder(Stamps(ch, iv), iv.startedMS, iv.endedMS);
      ChildRises(c.tables, iv, ts, ch, lo);
    }
    NoChildIsLater(iv);
    MarksLater(c.marks, lo, iv.endedMS);
    LexLeReflexive(ts);
    OneMark(c.marks, ts, iv.endedMS);
    SettingMarks(SetMark(c.marks, "cycles", ts), CHILD_TABLES, ts, iv.endedMS);
  }

  lemma OneMark(marks: Marks, ts: string, ms: int)
    requires MarksUpTo(marks, ms) && LexLe(ts, EventTS(ms))
    ensures MarksUpTo(SetMark(marks, "cycles", ts), ms)
  {
    hide EventTS, LexLe;
  }

  /** Intervals one after the other between two instants, with their children inside. */
  ghost predicate Consecutive(ivs: seq<Interval>, lo: int, hi: int) {
    && (forall k | 0 <= k < |ivs| ::
          lo <= ivs[k].startedMS <= ivs[k].endedMS <= hi && Stamped(ivs[k], ivs[k].startedMS, ivs[k].endedMS))
    && (forall k | 0 < k < |ivs| :: ivs[k - 1].endedMS <= ivs[k].startedMS)
  }

  lemma {:induction false} WritingKeepsStep(c: Copy, ivs: seq<Interval>, lo: int, hi: int)
    requires InStep(c, lo) && Consecutive(ivs, lo, hi) && FourDigitYear(lo) && FourDigitYear(hi)
    ensures InStep(WriteIntervals(c, ivs), if ivs == [] then lo else Last(ivs).endedMS)
  {
    hide InStep, WriteInterval, Stamped;
    if ivs != [] {
      WritingKeepsStep(c, Front(ivs), lo, hi);
      var mid := if Front(ivs) == [] then lo else Last(Front(ivs)).endedMS;
      assert lo <= ivs[|ivs| - 1].startedMS <= ivs[|ivs| - 1].endedMS <= hi;
      assert Front(ivs) != [] ==> Last(Front(ivs)) == ivs[|ivs| - 2];
      WriteKeepsStep(WriteIntervals(c, Front(ivs)), Last(ivs), mid);
    }
  }

  const EMPTY := Copy(Tables([], [], [], [], [], [], []), map[])

  lemma EmptyInStep(ms: int)
    ensures InStep(EMPTY, ms)
  {
    hide EventTS;
  }

  lemma RunConsecutive(cfg: Settings, start: int, inputs: seq<Input>, closeAt: int)
    requires BasePath(start, inputs) && Now(start, inputs) <= closeAt
    ensures Consecutive(WholeRun(cfg, inputs, closeAt).closed, start, closeAt + 1)
  {
    hide Run, FlushOpen, Stamped, WithinCap;
    var f := WholeRun(cfg, inputs, closeAt);
    RunTimeline(cfg, start, inputs, closeAt);
    SynthKeys.EmittedAreFinished(f.finished);
    Finality.LaterSince(cfg, INITIAL, start, inputs, closeAt);
    assert Finality.LaterIntervals(cfg, INITIAL, inputs, closeAt) == f.closed;
    forall k | 0 <= k < |f.closed|
      ensures Stamped(f.closed[k], f.closed[k].startedMS, f.closed[k].endedMS) && f.closed[k].endedMS <= closeAt + 1
    {
      assert f.closed[k] in f.finished;
      RowsWithinInterval(cfg, start, inputs, closeAt, f.closed[k]);
    }
    assert forall k | 0 <= k < |f.closed| :: start <= f.closed[k].startedMS < f.closed[k].endedMS;
    forall k | 0 < k < |f.closed| ensures f.closed[k - 1].endedMS <= f.closed[k].startedMS {
      EmittedApart(f.finished, closeAt + 1, k - 1, k);
    }
  }

  // ---------------------------------------------------------------------------
  // Main result
  // ---------------------------------------------------------------------------

  /** Written interval by interval into an empty replica, a base-path run in years 0 to 9999 leaves every table in the
      order of its emit timestamps, child tables included although nothing guards them; the guard of the cycles never
      clamps; and no child carries a later timestamp than its cycle. */
  lemma ReplicaInOrder(cfg: Settings, start: int, inputs: seq<Input>, closeAt: int)
    requires BasePath(start, inputs) && Now(start, inputs) <= closeAt
    requires FourDigitYear(start) && FourDigitYear(closeAt + 1)
    ensures var ivs := WholeRun(cfg, inputs, closeAt).closed;
            var t := WriteIntervals(EMPTY, ivs).tables;
            && (forall c, j, k | 0 <= j < k < |ChildTS(c, t)| :: LexLe(ChildTS(c, t)[j], ChildTS(c, t)[k]))
            && (forall j, k | 0 <= j < k < |t.cycles| :: LexLe(t.cycles[j].eventTS, t.cycles[k].eventTS))
            && (forall k | 0 <= k < |t.cycles| :: t.cycles[k].eventTS == EventTS(t.cycles[k].endedMS))
            && (forall iv, c, k | iv in ivs && 0 <= k < |Stamps(c, iv)| ::
                  LexLe(EventTS(Stamps(c, iv)[k]), EventTS(iv.endedMS)))
  {
    hide WholeRun, EventTS, LexLe, BasePath, Now, WriteIntervals, Stamps, Stamped;
    var ivs := WholeRun(cfg, inputs, closeAt).closed;
    RunConsecutive(cfg, start, inputs, closeAt);
    EmptyInStep(start);
    WritingKeepsStep(EMPTY, ivs, start, closeAt + 1);
    var t := WriteIntervals(EMPTY, ivs).tables;
    InStepShows(WriteIntervals(EMPTY, ivs), if ivs == [] then start else Last(ivs).endedMS);
    forall iv, c, k | iv in ivs && 0 <= k < |Stamps(c, iv)|
      ensures LexLe(EventTS(Stamps(c, iv)[k]), EventTS(iv.endedMS))
    {
      var m :| 0 <= m < |ivs| && ivs[m] == iv;
      NoChildIsLater(iv);
    }
  }

  lemma InStepShows(c: Copy, ms: int)
    requires InStep(c, ms)
    ensures var t := c.tables;
            && (forall c, j, k | 0 <= j < k < |ChildTS(c, t)| :: LexLe(ChildTS(c, t)[j], ChildTS(c, t)[k]))
            && (forall j, k | 0 <= j < k < |t.cycles| :: LexLe(t.cycles[j].eventTS, t.cycles[k].eventTS))
            && (forall k | 0 <= k < |t.cycles| :: t.cycles[k].eventTS == EventTS(t.cycles[k].endedMS))
  {
    hide EventTS, LexLe, ChildTS;
    var t := c.tables;
    forall c ensures Rising(ChildTS(c, t), EventTS(ms)) {
    }
    assert Rising(CycleTS(t.cycles), EventTS(ms));
    forall j, k | 0 <= j < k < |t.cycles| ensures LexLe(t.cycles[j].eventTS, t.cycles[k].eventTS) {
      assert LexLe(CycleTS(t.cycles)[j], CycleTS(t.cycles)[k]);
    }
  }
}
