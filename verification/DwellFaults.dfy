/** Which dwell a fault belongs to (cmd/projector/tracker.go): the counts of the dwells against the fault rows. */
module DwellFaults {
  import opened Sorting
  import opened Source
  import opened Intervals
  import opened TrackerSpec
  import opened Frames
  import opened Dwells
  import opened DwellHistory

  function InDwell(n: int): OutFault -> bool {
    (f: OutFault) => f.dwellSeqIndex == Some(n)
  }

  /** The faults that name a dwell of the lane; they only ever name dwells of the main one. */
  function Credited(faults: seq<OutFault>, lane: Lane, n: int): nat {
    if lane == Main then |Filter(InDwell(n), faults)| else 0
  }

  ghost predicate Named(faults: seq<OutFault>, next: int) {
    forall k | 0 <= k < |faults| && faults[k].dwellSeqIndex.Some? :: faults[k].dwellSeqIndex.value < next
  }

  ghost predicate LogCredited(log: seq<OutDwell>, faults: seq<OutFault>, lane: Lane, next: int) {
    forall k | 0 <= k < |log| :: log[k].seqIndex < next && log[k].faultCount == Credited(faults, lane, log[k].seqIndex)
  }

  /** One lane of the open interval. */
  ghost predicate LaneCredited(t: State, lane: Lane)
    requires t.current.Some?
  {
    var faults, log := t.current.value.faults, LaneLog(t.current.value, lane);
    && (lane == Main ==> Named(faults, NextSeq(t, lane)))
    && if lane !in t.openDwells then LogCredited(log, faults, lane, NextSeq(t, lane))
       else
         var d := t.openDwells[lane];
         && d.seqIndex < NextSeq(t, lane) && LogCredited(log, faults, lane, d.seqIndex)
         && d.faults == Credited(faults, lane, d.seqIndex)
  }

  ghost predicate LaneSettled(iv: Interval, lane: Lane) {
    exists next :: LogCredited(LaneLog(iv, lane), iv.faults, lane, next)
  }

  ghost predicate AllCredited(t: State) {
    && (t.current.Some? ==> forall lane :: LaneCredited(t, lane))
    && (t.current.None? ==> t.openDwells == map[])
    && forall k, lane | 0 <= k < |t.finished| :: LaneSettled(t.finished[k], lane)
  }

  lemma LogLater(log: seq<OutDwell>, faults: seq<OutFault>, lane: Lane, next: int, later: int)
    requires LogCredited(log, faults, lane, next) && next <= later
    ensures LogCredited(log, faults, lane, later)
  {
    hide Credited;
  }

  lemma OneMoreDwell(log: seq<OutDwell>, faults: seq<OutFault>, lane: Lane, d: OutDwell, next: int)
    requires LogCredited(log, faults, lane, d.seqIndex) && d.seqIndex < next
    requires d.faultCount == Credited(faults, lane, d.seqIndex)
    ensures LogCredited(log + [d], faults, lane, next)
  {
    hide Credited;
  }

  lemma {:induction false} NoneNamed(faults: seq<OutFault>, n: int)
    requires Named(faults, n)
    ensures |Filter(InDwell(n), faults)| == 0
  {
    if faults != [] {
      var front, f := Front(faults), Last(faults);
      assert faults == front + [f];
      FilterSnoc(InDwell(n), front, f);
      assert faults[|faults| - 1] == f;
      NoneNamed(front, n);
    }
  }

  // ---------------------------------------------------------------------------
  // Events
  // ---------------------------------------------------------------------------

  lemma SameCredited(t: State, r: State, lane: Lane)
    requires t.current.Some? && r.current.Some? && LaneCredited(t, lane)
    requires r.current.value.faults == t.current.value.faults && NextSeq(r, lane) == NextSeq(t, lane)
    requires LaneLog(r.current.value, lane) == LaneLog(t.current.value, lane)
    requires lane in r.openDwells <==> lane in t.openDwells
    requires lane in r.openDwells ==> r.openDwells[lane].seqIndex == t.openDwells[lane].seqIndex
                                      && r.openDwells[lane].faults == t.openDwells[lane].faults
    ensures LaneCredited(r, lane)
  {
    hide LaneLog, Credited;
  }

  /** A lane's log after its dwell was closed. */
  lemma ClosedCredited(t: State, lane: Lane, atMS: int)
    requires t.current.Some? && LaneCredited(t, lane)
    ensures LogCredited(LaneLog(t.current.value, lane) + ClosedRow(t, lane, atMS), t.current.value.faults, lane,
                        NextSeq(t, lane))
  {
    hide LaneLog, Credited, LogCredited, Named;
    var log, faults := LaneLog(t.current.value, lane), t.current.value.faults;
    assert log + [] == log;
    if lane in t.openDwells {
      LogLater(log, faults, lane, t.openDwells[lane].seqIndex, NextSeq(t, lane));
      OneMoreDwell(log, faults, lane, DwellRow(t.openDwells[lane], lane, t.current.value.orderKey, atMS),
                   NextSeq(t, lane));
    }
  }

  /** An event that starts a dwell in its lane. */
  lemma StartsCredited(t: State, e: FsmEvent, atMS: int)
    requires t.current.Some? && LaneCredited(t, LaneForState(e.currentState))
    requires var lane := LaneForState(e.currentState);
             lane in t.openDwells ==> !SameDwell(t.openDwells[lane], e.currentState, StepOf(e))
    ensures LaneCredited(AddEvent(TrackDwell(t, e, atMS), e, atMS), LaneForState(e.currentState))
  {
    hide LaneLog, Credited, CloseDwell, LogCredited, Filter;
    var lane := LaneForState(e.currentState);
    var t1 := if lane in t.openDwells then CountedIn(t, e) else t;
    var t2, r := CloseDwell(t1, lane, atMS), AddEvent(TrackDwell(t, e, atMS), e, atMS);
    SameCredited(t, t1, lane);
    ClosedCredited(t1, lane, atMS);
    CloseDwellLog(t1, lane, atMS, lane);
    SameLog(t2, r, lane);
    NothingYet(t, lane);
  }

  lemma NothingYet(t: State, lane: Lane)
    requires t.current.Some? && LaneCredited(t, lane)
    ensures Credited(t.current.value.faults, lane, NextSeq(t, lane)) == 0
  {
    hide LaneLog, LogCredited, Named, Filter;
    if lane == Main {
      NoneNamed(t.current.value.faults, NextSeq(t, lane));
    }
  }

  lemma EventCredited(cfg: Settings, t: State, e: FsmEvent, atMS: int, lane: Lane)
    requires t.current.Some? && !cfg.useStepRuns && LaneCredited(t, lane)
    ensures LaneCredited(RecordEvent(cfg, t, e, atMS), lane)
  {
    hide LaneCredited, TrackDwell, TrackStateSpan, LaneLog;
    var t2, own := BeforeDwell(t, e, atMS), LaneForState(e.currentState);
    SameLog(t, t2, lane);
    SameCredited(t, t2, lane);
    if lane == own && (own in t2.openDwells ==> !SameDwell(t2.openDwells[own], e.currentState, StepOf(e))) {
      StartsCredited(t2, e, atMS);
    } else {
      KeepsDwell(t2, e, atMS, lane);
      SameCredited(t2, AddEvent(TrackDwell(t2, e, atMS), e, atMS), lane);
    }
  }

  /** An event of another lane, or at the position of the open dwell. */
  lemma KeepsDwell(t: State, e: FsmEvent, atMS: int, lane: Lane)
    requires t.current.Some?
    requires var own := LaneForState(e.currentState);
             lane != own || (own in t.openDwells && SameDwell(t.openDwells[own], e.currentState, StepOf(e)))
    ensures var r := AddEvent(TrackDwell(t, e, atMS), e, atMS);
            && r.current.value.faults == t.current.value.faults && NextSeq(r, lane) == NextSeq(t, lane)
            && LaneLog(r.current.value, lane) == LaneLog(t.current.value, lane)
            && (lane in r.openDwells <==> lane in t.openDwells)
            && (lane in r.openDwells ==> r.openDwells[lane].seqIndex == t.openDwells[lane].seqIndex
                                         && r.openDwells[lane].faults == t.openDwells[lane].faults)
  {
    hide LaneLog, CloseDwell;
    var own := LaneForState(e.currentState);
    var t1 := if own in t.openDwells then CountedIn(t, e) else t;
    CloseDwellLog(t1, own, atMS, lane);
    SameLog(TrackDwell(t, e, atMS), AddEvent(TrackDwell(t, e, atMS), e, atMS), lane);
    SameLog(t, t1, lane);
    assert LaneLog(t.current.value, lane) + [] == LaneLog(t.current.value, lane);
  }

  // ---------------------------------------------------------------------------
  // Faults
  // ---------------------------------------------------------------------------

  lemma CreditMore(faults: seq<OutFault>, f: OutFault, n: int)
    ensures |Filter(InDwell(n), faults + [f])|
         == |Filter(InDwell(n), faults)| + if f.dwellSeqIndex == Some(n) then 1 else 0
  {
    FilterSnoc(InDwell(n), faults, f);
  }

  lemma LogKeepsCredit(log: seq<OutDwell>, faults: seq<OutFault>, f: OutFault, lane: Lane, next: int)
    requires LogCredited(log, faults, lane, next)
    requires lane == Main && f.dwellSeqIndex.Some? ==> next <= f.dwellSeqIndex.value
    ensures LogCredited(log, faults + [f], lane, next)
  {
    hide Filter;
    forall k | 0 <= k < |log| ensures log[k].faultCount == Credited(faults + [f], lane, log[k].seqIndex) {
      CreditMore(faults, f, log[k].seqIndex);
    }
  }

  lemma FaultCredited(cfg: Settings, t: State, f: Fault, atMS: int, lane: Lane)
    requires t.current.Some? && LaneCredited(t, lane)
    ensures LaneCredited(RecordFault(cfg, t, f, atMS), lane)
  {
    hide LaneLog, LedgerFaultKey, RecordLedgerFault, LogCredited, Filter;
    var r := RecordFault(cfg, t, f, atMS);
    var row := Last(r.current.value.faults);
    assert r.current.value.faults == t.current.value.faults + [row];
    SameLog(t, r, lane);
    LogKeepsCredit(LaneLog(t.current.value, lane), t.current.value.faults, row, lane,
                   if lane in t.openDwells then t.openDwells[lane].seqIndex else NextSeq(t, lane));
    if lane in t.openDwells {
      CreditMore(t.current.value.faults, row, t.openDwells[lane].seqIndex);
    }
  }

  lemma OthersKeepCredit(cfg: Settings, t: State, i: Input, lane: Lane)
    requires t.current.Some? && !IsStepRun(i) && !(i.Apply? && (i.row.EventRow? || i.row.FaultRow?))
    requires LaneCredited(t, lane)
    ensures LaneCredited(Record(cfg, t, i), lane)
  {
    hide LaneCredited, LaneLog, ApplyDoorSignals;
    SameLog(t, Record(cfg, t, i), lane);
    SameCredited(t, Record(cfg, t, i), lane);
  }

  lemma RecordCredited(cfg: Settings, t: State, i: Input)
    requires t.current.Some? && AllCredited(t) && !IsStepRun(i) && !cfg.useStepRuns
    ensures AllCredited(Record(cfg, t, i))
  {
    hide LaneCredited, LaneSettled, RecordEvent, RecordFault, Record;
    var r := Record(cfg, t, i);
    forall lane ensures LaneCredited(r, lane) {
      if i.Apply? && i.row.EventRow? {
        EventCredited(cfg, t, i.row.event, AtMS(i), lane);
        RecordsEvent(cfg, t, i, i.row.event);
      } else if i.Apply? && i.row.FaultRow? {
        FaultCredited(cfg, t, i.row.fault, AtMS(i), lane);
        RecordsFault(cfg, t, i, i.row.fault);
      } else {
        OthersKeepCredit(cfg, t, i, lane);
      }
    }
  }

  lemma RecordsFault(cfg: Settings, t: State, i: Input, f: Fault)
    requires t.current.Some? && i == Apply(FaultRow(f))
    ensures Record(cfg, t, i) == RecordFault(cfg, t, f, AtMS(i))
  {
    hide RecordFault;
  }

  // ---------------------------------------------------------------------------
  // Runs
  // ---------------------------------------------------------------------------

  lemma ClosedLaneSettled(t: State, atMS: int, forced: Option<Result>, lane: Lane)
    requires t.current.Some? && LaneCredited(t, lane)
    ensures var c := CloseInterval(t, atMS, forced); c.finished != [] && LaneSettled(Last(c.finished), lane)
  {
    hide LaneCredited, CloseOpenDwells, CloseStateSpan, Filter, ClosedRow, LogCredited, Credited;
    CloseDwellsLog(t, atMS, lane);
    ClosedCredited(t, lane, atMS);
    var iv := Last(CloseInterval(t, atMS, forced).finished);
    var mid := CloseOpenDwells(t, atMS).current.value;
    assert iv.dwellLog == mid.dwellLog && iv.faults == t.current.value.faults;
    assert LaneLog(iv, lane) == LaneLog(mid, lane);
  }

  lemma CloseCredited(t: State, atMS: int, forced: Option<Result>)
    requires AllCredited(t)
    ensures AllCredited(CloseInterval(t, atMS, forced))
  {
    hide CloseInterval, LaneCredited, LaneSettled, SameRows, SameTally;
    CloseFrame(t, atMS, forced);
    if t.current.Some? {
      var c := CloseInterval(t, atMS, forced);
      assert c.finished == t.finished + [Last(c.finished)];
      forall lane ensures LaneSettled(Last(c.finished), lane) {
        ClosedLaneSettled(t, atMS, forced, lane);
      }
    }
  }

  lemma FreshCredited(t: State, orderKey: string, state: string, atMS: int)
    requires AllCredited(t) && t.current.None?
    ensures AllCredited(Fresh(t, orderKey, state, atMS))
  {
    hide SynthKey, LaneSettled;
  }

  lemma OpenCredited(cfg: Settings, t: State, i: Input)
    requires AllCredited(t)
    ensures AllCredited(Opened(cfg, t, i))
  {
    hide CloseInterval, EnsureInterval, Fresh, AllCredited;
    var at := OpenAtMS(i);
    EnsureShape(cfg, t, KeyOf(i), StateOf(t, i), at);
    var forced := if Overdue(cfg, t, at) then Some(ForcedResult(t.current.value)) else None;
    CloseCredited(t, at, forced);
    CloseFrame(t, at, forced);
    if Opened(cfg, t, i) != t {
      FreshCredited(CloseInterval(t, at, forced), KeyOf(i), StateOf(t, i), at);
    }
  }

  lemma StepCredited(cfg: Settings, t: State, i: Input)
    requires AllCredited(t) && !IsStepRun(i) && !cfg.useStepRuns
    ensures AllCredited(Step(cfg, t, i))
  {
    hide CloseInterval, Opened, Record, VerdictOf, AllCredited;
    OpenCredited(cfg, t, i);
    var t1 := Opened(cfg, t, i);
    RecordCredited(cfg, t1, i);
    CloseCredited(Record(cfg, t1, i), AtMS(i), VerdictOf(cfg, t1, i));
  }

  lemma {:induction false} RunCredited(cfg: Settings, inputs: seq<Input>)
    requires !cfg.useStepRuns && forall k | 0 <= k < |inputs| :: !IsStepRun(inputs[k])
    ensures AllCredited(Run(cfg, INITIAL, inputs))
  {
    hide Step, LaneCredited, LaneSettled;
    if inputs != [] {
      RunCredited(cfg, Front(inputs));
      assert !IsStepRun(Last(inputs));
      StepCredited(cfg, Run(cfg, INITIAL, Front(inputs)), Last(inputs));
    }
  }

  /** Without step runs a dwell counts the faults of its interval that name it; faults name main-lane dwells only. */
  lemma DwellsCountTheirFaults(cfg: Settings, inputs: seq<Input>, closeAt: int, iv: Interval, d: OutDwell)
    requires !cfg.useStepRuns && forall k | 0 <= k < |inputs| :: !IsStepRun(inputs[k])
    requires iv in WholeRun(cfg, inputs, closeAt).finished && d in iv.dwellLog
    ensures d.faultCount == if d.lane == Main then |Filter(InDwell(d.seqIndex), iv.faults)| else 0
  {
    hide Run, CloseInterval, LaneCredited;
    var t := Run(cfg, INITIAL, inputs);
    RunCredited(cfg, inputs);
    FlushIsClose(cfg, inputs, closeAt);
    CloseCredited(t, FlushAt(t, closeAt), FlushResult(t));
    assert LaneSettled(iv, d.lane);
    FilterMembers(InLane(d.lane), iv.dwellLog);
    var log := LaneLog(iv, d.lane);
    var k :| 0 <= k < |log| && log[k] == d;
  }
}
