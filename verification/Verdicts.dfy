/** What an interval says about itself (cmd/projector/tracker.go): its counters, its faults and its result.
    Everything here holds on both paths and for any order of timestamps. */
module Verdicts {
  import opened Sorting
  import opened Source
  import opened Intervals
  import opened TrackerSpec
  import opened Frames

  // ---------------------------------------------------------------------------
  // Tallies
  // ---------------------------------------------------------------------------

  function OfType(k: string): OutFault -> bool {
    (f: OutFault) => f.faultType == k
  }

  function OfEventKind(k: string): OutEvent -> bool {
    (e: OutEvent) => e.row.kind == k
  }

  function LastState(s: seq<OutEvent>): string {
    if s == [] then "" else if Last(s).row.currentState != "" then Last(s).row.currentState else LastState(Front(s))
  }

  function LastStep(s: seq<OutEvent>): Option<int> {
    if s == [] then None else if Last(s).row.stepTo.Some? then Last(s).row.stepTo else LastStep(Front(s))
  }

  ghost predicate CountsTypes(counts: map<string, int>, faults: seq<OutFault>) {
    forall k :: (k in counts <==> Filter(OfType(k), faults) != [])
                && (k in counts ==> counts[k] == |Filter(OfType(k), faults)|)
  }

  /** The fault summary of an interval describes its fault list. */
  ghost predicate FaultsTally(cfg: Settings, iv: Interval) {
    && iv.faultCount == |iv.faults|
    && CountsTypes(iv.faultTypeCounts, iv.faults)
    && iv.firstFaultMS == (if iv.faults == [] then None else Some(iv.faults[0].raisedAtMS))
    && iv.lastFaultMS == (if iv.faults == [] then None else Some(Last(iv.faults).raisedAtMS))
    && forall k | 0 <= k < |iv.faults| ::
         iv.faults[k].severity == cfg.severity(iv.faults[k].faultType) && iv.faults[k].orderKey == iv.orderKey
  }

  /** The event counters and terminal fields of an interval describe its event list. */
  ghost predicate EventsTally(iv: Interval) {
    && iv.fsmEventCount == |iv.events|
    && iv.stateTransitionCount == |Filter(OfEventKind("state_transition"), iv.events)|
    && iv.stepEventCount == |Filter(OfEventKind("step_changed"), iv.events)|
    && (forall s :: s in iv.uniqueStates <==>
          s != "" && exists k | 0 <= k < |iv.events| :: iv.events[k].row.currentState == s)
    && iv.terminalState == LastState(iv.events)
    && iv.terminalStep == LastStep(iv.events)
    && forall k | 0 <= k < |iv.events| ::
         iv.events[k].eventAtMS == Millis(iv.events[k].row.ts) && iv.events[k].orderKey == iv.orderKey
  }

  lemma CountsOneMore(counts: map<string, int>, faults: seq<OutFault>, f: OutFault)
    requires CountsTypes(counts, faults)
    ensures CountsTypes(counts[f.faultType := (if f.faultType in counts then counts[f.faultType] else 0) + 1],
                        faults + [f])
  {
    assert Front(faults + [f]) == faults;
  }

  lemma FaultTallied(cfg: Settings, iv: Interval, f: OutFault)
    requires FaultsTally(cfg, iv) && f.severity == cfg.severity(f.faultType) && f.orderKey == iv.orderKey
    ensures FaultsTally(cfg, WithFault(iv, f))
  {
    hide CountsTypes;
    CountsOneMore(iv.faultTypeCounts, iv.faults, f);
  }

  lemma EventTallied(iv: Interval, r: Interval, e: FsmEvent, atMS: int)
    requires EventsTally(iv) && atMS == Millis(e.ts)
    requires r == CountIn(iv.(events := iv.events + [OutEvent(atMS, iv.orderKey, e)]), e).(
                    stateDurations := r.stateDurations, stepDwells := r.stepDwells, dwellLog := r.dwellLog)
    ensures EventsTally(r)
  {
    var events, more := iv.events, r.events;
    assert Front(more) == events && Last(more).row == e;
    forall s ensures s in r.uniqueStates <==>
                     s != "" && exists k | 0 <= k < |more| :: more[k].row.currentState == s
    {
      assert more[|events|].row == e;
      assert forall k | 0 <= k < |events| :: more[k] == events[k];
    }
  }

  ghost predicate Tallied(cfg: Settings, iv: Interval) {
    FaultsTally(cfg, iv) && EventsTally(iv)
  }

  lemma FreshTallied(cfg: Settings, k: string, p: bool, at: int, r: Result)
    ensures Tallied(cfg, NewInterval(k, p, at, r))
  {
  }

  lemma SameTallied(cfg: Settings, a: Interval, b: Interval)
    requires Tallied(cfg, a) && SameTally(a, b) && a.faults == b.faults && a.events == b.events
    requires a.orderKey == b.orderKey
    ensures Tallied(cfg, b)
  {
  }

  lemma EventRowTallied(cfg: Settings, t: State, e: FsmEvent, atMS: int)
    requires t.current.Some? && Tallied(cfg, t.current.value) && atMS == Millis(e.ts)
    ensures Tallied(cfg, RecordEvent(cfg, t, e, atMS).current.value)
  {
    hide FaultsTally, EventsTally, RecordEvent;
    var iv, r := t.current.value, RecordEvent(cfg, t, e, atMS).current.value;
    EventTallied(iv, r, e, atMS);
    SameFaultsTally(cfg, iv, r);
  }

  lemma RecordTallied(cfg: Settings, t: State, i: Input)
    requires t.current.Some? && Tallied(cfg, t.current.value)
    ensures Tallied(cfg, Record(cfg, t, i).current.value)
  {
    hide FaultsTally, EventsTally, RecordEvent, RecordFault, RecordStepRun;
    var iv, r := t.current.value, Record(cfg, t, i).current.value;
    match i {
      case Config(_, _, _, _) => SameTallied(cfg, iv, r);
      case Apply(row) =>
        match row {
          case OrderRow(_) => SameButOrder(cfg, iv, r);
          case EventRow(e) => EventRowTallied(cfg, t, e, AtMS(i));
          case StepRunRow(sr) => StepRunTallied(cfg, t, sr);
          case FaultRow(f) => FaultRowTallied(cfg, t, f, AtMS(i));
          case ToggleRow(_) => SameTallied(cfg, iv, r);
        }
    }
  }

  lemma SameButOrder(cfg: Settings, a: Interval, b: Interval)
    requires Tallied(cfg, a) && b == a.(recipeID := b.recipeID, glassCount := b.glassCount)
    ensures Tallied(cfg, b)
  {
  }

  lemma SameFaultsTally(cfg: Settings, iv: Interval, r: Interval)
    requires FaultsTally(cfg, iv)
    requires r.faults == iv.faults && r.orderKey == iv.orderKey && r.faultCount == iv.faultCount
    requires r.faultTypeCounts == iv.faultTypeCounts && r.firstFaultMS == iv.firstFaultMS
    requires r.lastFaultMS == iv.lastFaultMS
    ensures FaultsTally(cfg, r)
  {
  }

  lemma WithFaultKeepsEvents(iv: Interval, f: OutFault)
    requires EventsTally(iv)
    ensures EventsTally(WithFault(iv, f))
  {
  }

  lemma FaultRowTallied(cfg: Settings, t: State, f: Fault, atMS: int)
    requires t.current.Some? && Tallied(cfg, t.current.value)
    ensures Tallied(cfg, RecordFault(cfg, t, f, atMS).current.value)
  {
    hide FaultsTally, EventsTally, LedgerFaultKey, RecordLedgerFault, WithFault;
    var iv := t.current.value;
    var dwellSeq := if Main in t.openDwells then Some(t.openDwells[Main].seqIndex) else None;
    var row := OutFault(atMS, iv.orderKey, LedgerFaultKey(f, iv.orderKey), f.faultType, cfg.severity(f.faultType),
                        f.state, f.step, f.message, dwellSeq);
    FaultTallied(cfg, iv, row);
    WithFaultKeepsEvents(iv, row);
  }

  lemma StepRunTallied(cfg: Settings, t: State, sr: StepRun)
    requires t.current.Some? && Tallied(cfg, t.current.value)
    ensures Tallied(cfg, RecordStepRun(cfg, t, sr).current.value)
  {
    hide FaultsTally, EventsTally, StepRunFaultKey, StepRunEmits, StepRunFaultCounts, WithFault, StepRunDwell;
    if Millis(sr.started) < Millis(sr.ended) {
      var n := NextSeq(t, LaneForState(sr.currentState));
      var iv := WithDwell(t.current.value, StepRunDwell(sr, t.current.value.orderKey, n));
      SameTallied(cfg, t.current.value, iv);
      var row := OutFault(Millis(sr.ended), iv.orderKey, StepRunFaultKey(sr, iv.orderKey), sr.faultType,
                          cfg.severity(sr.faultType), sr.currentState, sr.step, sr.faultMessage, Some(n));
      FaultTallied(cfg, iv, row);
      WithFaultKeepsEvents(iv, row);
    }
  }
}
