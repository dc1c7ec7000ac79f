/** What becomes of the step runs (cmd/projector/tracker.go): their dwells, the numbers these carry, and the faults they
    report that the fault table does not have. */
module StepRunRows {
  import opened Sorting
  import opened Source
  import opened Intervals
  import opened TrackerSpec
  import opened Frames
  import opened Buffers
  import opened Dwells
  import opened Ledger
  import Results

  function IsRun(): OutDwell -> bool {
    (d: OutDwell) => d.sourceKind == StepRuns
  }

  /** A step run as its dwell shows it. */
  datatype RunFact = RunFact(startedMS: int, endedMS: int, durationMS: int, lane: Lane, state: string,
                             step: Option<int>, faultCount: int, faultType: string, faultMessage: string)

  function FactOfRun(d: OutDwell): RunFact {
    RunFact(d.startedAtMS, d.endedAtMS, d.durationMS, d.lane, d.state, d.step, d.faultCount, d.faultType,
            d.faultMessage)
  }

  function RunFacts(iv: Interval): seq<RunFact> {
    var runs := Filter(IsRun(), iv.stepDwells);
    seq(|runs|, k requires 0 <= k < |runs| => FactOfRun(runs[k]))
  }

  /** What a step run leaves in the open interval: a dwell, unless it has no length or the machine stood idle outside
      production. */
  function RunsBy(t: State, i: Input): seq<RunFact>
    requires t.current.Some?
  {
    if !IsStepRun(i) then []
    else
      var sr := i.row.stepRun;
      var startMS, endMS := Millis(sr.started), Millis(sr.ended);
      if startMS < endMS && (t.current.value.isProduction || sr.currentState != "HomeIdle") then
        [RunFact(startMS, endMS, endMS - startMS,
                 if sr.currentState == "Tilter" then Tilter else if sr.currentState == "Crusher" then Crusher else Main,
                 sr.currentState, Some(sr.step), if sr.faultType == "" then 0 else 1, sr.faultType, sr.faultMessage)]
      else []
  }

  ghost function RunsFiled(cfg: Settings, inputs: seq<Input>): seq<RunFact> {
    if inputs == [] then []
    else
      var t := Run(cfg, INITIAL, Front(inputs));
      RunsFiled(cfg, Front(inputs)) + RunsBy(Opened(cfg, t, Last(inputs)), Last(inputs))
  }

  // ---------------------------------------------------------------------------
  // Every step run has its dwell
  // ---------------------------------------------------------------------------

  lemma {:induction false} DerivedAreNoRuns(a: seq<OutDwell>, b: seq<OutDwell>)
    requires Results.DerivedAfter(a, b)
    ensures Filter(IsRun(), b) == Filter(IsRun(), a)
    decreases |b|
  {
    if |b| > |a| {
      assert b[|b| - 1].sourceKind == Derived;
      DerivedAreNoRuns(a, Front(b));
      assert b == Front(b) + [Last(b)];
      FilterSnoc(IsRun(), Front(b), Last(b));
    } else {
      assert a == b;
    }
  }

  lemma SameRuns(a: Interval, b: Interval)
    requires Results.DerivedAfter(a.stepDwells, b.stepDwells)
    ensures RunFacts(b) == RunFacts(a)
  {
    hide Results.DerivedAfter, Filter;
    DerivedAreNoRuns(a.stepDwells, b.stepDwells);
  }

  lemma CloseKeepsRuns(t: State, atMS: int, forced: Option<Result>)
    ensures All(RunFacts, CloseInterval(t, atMS, forced)) == All(RunFacts, t)
  {
    hide CloseInterval, SameRows, SameTally, RunFacts, Results.DerivedAfter;
    CloseAll(RunFacts, t, atMS, forced);
    if t.current.Some? {
      Results.CloseDerives(t, atMS, forced);
      SameRuns(t.current.value, Last(CloseInterval(t, atMS, forced).finished));
    }
  }

  lemma OpenKeepsRuns(cfg: Settings, t: State, i: Input)
    ensures All(RunFacts, Opened(cfg, t, i)) == All(RunFacts, t)
  {
    hide CloseInterval, EnsureInterval, SynthKey, SameRows, SameTally, Flat;
    EnsureShape(cfg, t, KeyOf(i), StateOf(t, i), OpenAtMS(i));
    var forced := if Overdue(cfg, t, OpenAtMS(i)) then Some(ForcedResult(t.current.value)) else None;
    CloseKeepsRuns(t, OpenAtMS(i), forced);
    CloseFrame(t, OpenAtMS(i), forced);
    var r := Opened(cfg, t, i);
    if r != t {
      assert RunFacts(r.current.value) == [];
    }
  }

  lemma RecordAddsRuns(cfg: Settings, t: State, i: Input)
    requires t.current.Some?
    ensures RunFacts(Record(cfg, t, i).current.value) == RunFacts(t.current.value) + RunsBy(t, i)
  {
    hide RecordEvent, RecordFault, RecordStepRun, RunFacts, ApplyDoorSignals, Results.DerivedAfter, RunsBy;
    var a, b := t.current.value, Record(cfg, t, i).current.value;
    assert RunFacts(a) + [] == RunFacts(a);
    if IsStepRun(i) {
      StepRunAddsRun(cfg, t, i, i.row.stepRun);
    } else {
      NoRun(t, i);
      if i.Apply? && i.row.EventRow? {
        Results.EventDerives(cfg, t, i.row.event, AtMS(i));
      } else {
        OthersKeepDwells(cfg, t, i, Main);
        NothingDerived(a, b);
      }
      SameRuns(a, b);
    }
  }

  lemma NoRun(t: State, i: Input)
    requires t.current.Some? && !IsStepRun(i)
    ensures RunsBy(t, i) == []
  {
  }

  lemma NothingDerived(a: Interval, b: Interval)
    requires b.stepDwells == a.stepDwells
    ensures Results.DerivedAfter(a.stepDwells, b.stepDwells)
  {
  }

  lemma StepRunAddsRun(cfg: Settings, t: State, i: Input, sr: StepRun)
    requires t.current.Some? && i == Apply(StepRunRow(sr))
    ensures RunFacts(RecordStepRun(cfg, t, sr).current.value) == RunFacts(t.current.value) + RunsBy(t, i)
  {
    hide Filter, StepRunDwell;
    var iv, b := t.current.value, RecordStepRun(cfg, t, sr).current.value;
    StepRunDwells(cfg, t, sr);
    if b.stepDwells != iv.stepDwells {
      var d := StepRunDwell(sr, iv.orderKey, NextSeq(t, LaneForState(sr.currentState)));
      FilterSnoc(IsRun(), iv.stepDwells, d);
      RunShows(sr, iv.orderKey, NextSeq(t, LaneForState(sr.currentState)));
    }
  }

  lemma StepRunDwells(cfg: Settings, t: State, sr: StepRun)
    requires t.current.Some?
    ensures var d := StepRunDwell(sr, t.current.value.orderKey, NextSeq(t, LaneForState(sr.currentState)));
            var iv := t.current.value;
            var kept := Millis(sr.started) < Millis(sr.ended) && EmitsDwell(sr.currentState, iv.isProduction);
            RecordStepRun(cfg, t, sr).current.value.stepDwells == iv.stepDwells + (if kept then [d] else [])
  {
    hide StepRunFaultKey, LedgerCovers, StepRunFaultCounts;
  }

  lemma RunShows(sr: StepRun, orderKey: string, n: int)
    ensures var d := StepRunDwell(sr, orderKey, n);
            var startMS, endMS := Millis(sr.started), Millis(sr.ended);
            && d.sourceKind == StepRuns
            && FactOfRun(d) == RunFact(startMS, endMS, endMS - startMS,
                 if sr.currentState == "Tilter" then Tilter else if sr.currentState == "Crusher" then Crusher else Main,
                 sr.currentState, Some(sr.step), if sr.faultType == "" then 0 else 1, sr.faultType, sr.faultMessage)
  {
  }

  lemma StepAddsRuns(cfg: Settings, t: State, i: Input)
    ensures All(RunFacts, Step(cfg, t, i)) == All(RunFacts, t) + RunsBy(Opened(cfg, t, i), i)
  {
    hide CloseInterval, EnsureInterval, Record, VerdictOf, Flat, RunFacts, RunsBy;
    OpenKeepsRuns(cfg, t, i);
    var t1 := Opened(cfg, t, i);
    RecordAddsRuns(cfg, t1, i);
    CloseKeepsRuns(Record(cfg, t1, i), AtMS(i), VerdictOf(cfg, t1, i));
  }

  /** On all inputs, read in order over all intervals, the dwells of step runs are the applied step runs, but those
      without a length and those of an idle machine outside production. */
  lemma {:induction false} RunsConserved(cfg: Settings, inputs: seq<Input>)
    ensures All(RunFacts, Run(cfg, INITIAL, inputs)) == RunsFiled(cfg, inputs)
  {
    hide Step, Opened, RunsBy, RunFacts;
    if inputs != [] {
      RunsConserved(cfg, Front(inputs));
      StepAddsRuns(cfg, Run(cfg, INITIAL, Front(inputs)), Last(inputs));
    }
  }

  // ---------------------------------------------------------------------------
  // Faults that the fault table does not have
  // ---------------------------------------------------------------------------

  /** A fault row of this type was applied, within two seconds of the window. */
  ghost predicate AppliedNear(inputs: seq<Input>, faultType: string, startMS: int, endMS: int) {
    exists k :: 0 <= k < |inputs| && inputs[k].Apply? && inputs[k].row.FaultRow?
                && inputs[k].row.fault.faultType == faultType
                && startMS - 2_000 <= Millis(inputs[k].row.fault.ts) <= endMS + 2_000
  }

  lemma {:induction false} HistoryCovers(inputs: seq<Input>, faultType: string, startMS: int, endMS: int)
    ensures LedgerCovers(FromAll(LedgerIn, inputs), faultType, startMS, endMS)
       <==> AppliedNear(inputs, faultType, startMS, endMS)
  {
    if inputs != [] {
      hide LedgerCovers, AppliedNear;
      HistoryCovers(Front(inputs), faultType, startMS, endMS);
      CoversMore(FromAll(LedgerIn, Front(inputs)), Last(inputs), faultType, startMS, endMS);
      NearMore(Front(inputs), Last(inputs), faultType, startMS, endMS);
      assert inputs == Front(inputs) + [Last(inputs)];
    }
  }

  predicate IsNear(i: Input, faultType: string, startMS: int, endMS: int) {
    i.Apply? && i.row.FaultRow? && i.row.fault.faultType == faultType
    && startMS - 2_000 <= Millis(i.row.fault.ts) <= endMS + 2_000
  }

  lemma CoversMore(full: seq<LedgerFault>, i: Input, faultType: string, startMS: int, endMS: int)
    ensures LedgerCovers(full + LedgerIn(i), faultType, startMS, endMS)
       <==> LedgerCovers(full, faultType, startMS, endMS) || IsNear(i, faultType, startMS, endMS)
  {
    var more := full + LedgerIn(i);
    assert forall k | 0 <= k < |full| :: more[k] == full[k];
    if i.Apply? && i.row.FaultRow? {
      assert more[|full|] == LedgerFault(i.row.fault.faultType, Millis(i.row.fault.ts));
    }
  }

  lemma NearMore(inputs: seq<Input>, i: Input, faultType: string, startMS: int, endMS: int)
    ensures AppliedNear(inputs + [i], faultType, startMS, endMS)
       <==> AppliedNear(inputs, faultType, startMS, endMS) || IsNear(i, faultType, startMS, endMS)
  {
    var more := inputs + [i];
    assert more[|inputs|] == i && forall k | 0 <= k < |inputs| :: more[k] == inputs[k];
  }

  /** After a run with nondecreasing fault times, a step run whose window does not reach behind the pruned ledger files
      a fault exactly when it has a length, is not of an idle machine outside production, carries a fault, and no fault
      row of that type was applied within two seconds of it. */
  lemma FaultsOfStepRunsExactly(cfg: Settings, inputs: seq<Input>, sr: StepRun)
    requires cfg.stepRunFaults && FaultsInTime(FromAll(LedgerIn, inputs))
    requires var h := FromAll(LedgerIn, inputs);
             h != [] ==> Last(h).atMS - cfg.maxIntervalMS <= Millis(sr.started) - 2_000
    ensures var i := Apply(StepRunRow(sr));
            var t1 := Opened(cfg, Run(cfg, INITIAL, inputs), i);
            var files := Millis(sr.started) < Millis(sr.ended)
                         && (t1.current.value.isProduction || sr.currentState != "HomeIdle") && sr.faultType != ""
                         && !AppliedNear(inputs, sr.faultType, Millis(sr.started), Millis(sr.ended));
            var fact := FaultFact(sr.faultType, Millis(sr.ended), sr.currentState, sr.step, sr.faultMessage);
            FaultsBy(cfg, t1, i) == if files then [fact] else []
  {
    hide Run, EnsureInterval, LedgerCovers, Pruned, AppliedNear, FaultsInTime;
    var i := Apply(StepRunRow(sr));
    var t := Run(cfg, INITIAL, inputs);
    RunLedger(cfg, inputs);
    OpenKeepsLedger(cfg, t, i);
    PruningInvisible(cfg, FromAll(LedgerIn, inputs), sr.faultType, Millis(sr.started), Millis(sr.ended));
    HistoryCovers(inputs, sr.faultType, Millis(sr.started), Millis(sr.ended));
  }

  lemma OpenKeepsLedger(cfg: Settings, t: State, i: Input)
    ensures Opened(cfg, t, i).ledgerFaults == t.ledgerFaults
  {
    hide CloseInterval, EnsureInterval, SynthKey, SameRows, SameTally;
    EnsureShape(cfg, t, KeyOf(i), StateOf(t, i), OpenAtMS(i));
    var forced := if Overdue(cfg, t, OpenAtMS(i)) then Some(ForcedResult(t.current.value)) else None;
    CloseFrame(t, OpenAtMS(i), forced);
  }

  // ---------------------------------------------------------------------------
  // Sequence numbers
  // ---------------------------------------------------------------------------

  /** The k-th dwell of a lane has the number k; suppressed ones count. */
  ghost predicate InSequence(iv: Interval, lane: Lane) {
    forall k | 0 <= k < |LaneLog(iv, lane)| :: LaneLog(iv, lane)[k].seqIndex == k
  }

  ghost predicate LaneSequenced(t: State, lane: Lane)
    requires t.current.Some?
  {
    InSequence(t.current.value, lane) && NextSeq(t, lane) == |LaneLog(t.current.value, lane)|
  }

  ghost predicate Sequenced(t: State) {
    && t.openDwells == map[] && (t.current.Some? ==> forall lane :: LaneSequenced(t, lane))
    && forall k, lane | 0 <= k < |t.finished| :: InSequence(t.finished[k], lane)
  }

  lemma SameSequence(t: State, r: State, lane: Lane)
    requires t.current.Some? && r.current.Some? && LaneSequenced(t, lane) && r.dwellSeq == t.dwellSeq
    requires r.current.value.dwellLog == t.current.value.dwellLog
    ensures LaneSequenced(r, lane)
  {
  }

  lemma CloseSequenced(t: State, atMS: int, forced: Option<Result>)
    requires Sequenced(t)
    ensures Sequenced(CloseInterval(t, atMS, forced))
  {
    hide InSequence, CloseStateSpan, Filter, DominantKey;
    if t.current.Some? {
      var c := CloseInterval(t, atMS, forced);
      assert LaneSequenced(t, Main);
      assert CloseOpenDwells(t, atMS) == t;
      assert c.finished == t.finished + [Last(c.finished)];
      forall lane ensures InSequence(Last(c.finished), lane) {
        assert LaneSequenced(t, lane);
        SameLogSequence(t.current.value, Last(c.finished), lane);
      }
    }
  }

  lemma SameLogSequence(a: Interval, b: Interval, lane: Lane)
    requires InSequence(a, lane) && b.dwellLog == a.dwellLog
    ensures InSequence(b, lane)
  {
    assert LaneLog(b, lane) == LaneLog(a, lane);
  }

  lemma OpenSequenced(cfg: Settings, t: State, i: Input)
    requires Sequenced(t)
    ensures Sequenced(Opened(cfg, t, i))
  {
    hide CloseInterval, EnsureInterval, SynthKey, SameRows, SameTally, InSequence;
    EnsureShape(cfg, t, KeyOf(i), StateOf(t, i), OpenAtMS(i));
    var forced := if Overdue(cfg, t, OpenAtMS(i)) then Some(ForcedResult(t.current.value)) else None;
    CloseSequenced(t, OpenAtMS(i), forced);
    CloseFrame(t, OpenAtMS(i), forced);
    var r := Opened(cfg, t, i);
    if r != t {
      forall lane ensures LaneSequenced(r, lane) {
        NothingInSequence(r, lane);
      }
    }
  }

  lemma NothingInSequence(r: State, lane: Lane)
    requires r.current.Some? && r.current.value.dwellLog == [] && r.dwellSeq == map[]
    ensures LaneSequenced(r, lane)
  {
  }

  lemma StepRunLog(cfg: Settings, t: State, sr: StepRun)
    requires t.current.Some?
    ensures var own, r := LaneForState(sr.currentState), RecordStepRun(cfg, t, sr);
            if Millis(sr.started) < Millis(sr.ended) then
              && r.current.value.dwellLog
                 == t.current.value.dwellLog + [StepRunDwell(sr, t.current.value.orderKey, NextSeq(t, own))]
              && NextSeq(r, own) == NextSeq(t, own) + 1
              && forall lane | lane != own :: NextSeq(r, lane) == NextSeq(t, lane)
            else r == t
  {
    hide StepRunFaultKey, StepRunFaultCounts, EmitsDwell;
  }

  lemma StepRunSequenced(cfg: Settings, t: State, sr: StepRun, lane: Lane)
    requires t.current.Some? && LaneSequenced(t, lane)
    ensures LaneSequenced(RecordStepRun(cfg, t, sr), lane)
  {
    hide Filter, RecordStepRun, NextSeq;
    StepRunLog(cfg, t, sr);
    var d := StepRunDwell(sr, t.current.value.orderKey, NextSeq(t, LaneForState(sr.currentState)));
    FilterSnoc(InLane(lane), t.current.value.dwellLog, d);
  }

  lemma FaultKeepsSequence(cfg: Settings, t: State, f: Fault, atMS: int)
    requires t.current.Some? && t.openDwells == map[]
    ensures var r := RecordFault(cfg, t, f, atMS);
            r.current.value.dwellLog == t.current.value.dwellLog && r.dwellSeq == t.dwellSeq && r.openDwells == map[]
  {
    hide LedgerFaultKey, RecordLedgerFault;
  }

  lemma OthersKeepSequence(cfg: Settings, t: State, i: Input)
    requires t.current.Some? && !IsStepRun(i) && cfg.useStepRuns && t.openDwells == map[]
    ensures var r := Record(cfg, t, i);
            r.current.value.dwellLog == t.current.value.dwellLog && r.dwellSeq == t.dwellSeq && r.openDwells == map[]
  {
    hide RecordFault, ApplyDoorSignals, TrackStateSpan;
    if i.Apply? && i.row.FaultRow? {
      FaultKeepsSequence(cfg, t, i.row.fault, AtMS(i));
    }
  }

  lemma RecordSequenced(cfg: Settings, t: State, i: Input)
    requires t.current.Some? && Sequenced(t) && cfg.useStepRuns
    ensures Sequenced(Record(cfg, t, i))
  {
    hide Record, RecordStepRun, InSequence, LaneSequenced;
    var r := Record(cfg, t, i);
    if IsStepRun(i) {
      RecordsStepRun(cfg, t, i, i.row.stepRun);
    } else {
      OthersKeepSequence(cfg, t, i);
    }
    forall lane ensures LaneSequenced(r, lane) {
      assert LaneSequenced(t, lane);
      if IsStepRun(i) {
        StepRunSequenced(cfg, t, i.row.stepRun, lane);
      } else {
        SameSequence(t, r, lane);
      }
    }
  }

  lemma RecordsStepRun(cfg: Settings, t: State, i: Input, sr: StepRun)
    requires t.current.Some? && i == Apply(StepRunRow(sr))
    ensures Record(cfg, t, i) == RecordStepRun(cfg, t, sr) && RecordStepRun(cfg, t, sr).openDwells == t.openDwells
  {
    hide StepRunFaultKey, StepRunFaultCounts, EmitsDwell, StepRunDwell;
  }

  lemma StepSequenced(cfg: Settings, t: State, i: Input)
    requires Sequenced(t) && cfg.useStepRuns
    ensures Sequenced(Step(cfg, t, i))
  {
    hide CloseInterval, Opened, Record, VerdictOf, Sequenced;
    OpenSequenced(cfg, t, i);
    var t1 := Opened(cfg, t, i);
    RecordSequenced(cfg, t1, i);
    CloseSequenced(Record(cfg, t1, i), AtMS(i), VerdictOf(cfg, t1, i));
  }

  lemma {:induction false} RunSequenced(cfg: Settings, inputs: seq<Input>)
    requires cfg.useStepRuns
    ensures Sequenced(Run(cfg, INITIAL, inputs))
  {
    hide Step, InSequence;
    if inputs != [] {
      RunSequenced(cfg, Front(inputs));
      StepSequenced(cfg, Run(cfg, INITIAL, Front(inputs)), Last(inputs));
    }
  }

  /** On a controller with step runs the dwells of a lane are numbered through within their interval, suppressed ones
      included. */
  lemma RunsAreNumbered(cfg: Settings, inputs: seq<Input>, closeAt: int, iv: Interval, lane: Lane)
    requires cfg.useStepRuns && iv in WholeRun(cfg, inputs, closeAt).finished
    ensures InSequence(iv, lane)
  {
    hide Run, CloseInterval, InSequence;
    var t := Run(cfg, INITIAL, inputs);
    RunSequenced(cfg, inputs);
    FlushIsClose(cfg, inputs, closeAt);
    CloseSequenced(t, FlushAt(t, closeAt), FlushResult(t));
  }
}
