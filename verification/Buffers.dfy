/** The buffers of all intervals read as one sequence, and the conservation of source rows. */
module Buffers {
  import opened Source
  import opened Intervals
  import opened TrackerSpec
  import opened Frames

  function Flat<T>(f: Interval -> seq<T>, ivs: seq<Interval>): seq<T> {
    if ivs == [] then [] else Flat(f, Front(ivs)) + f(Last(ivs))
  }

  /** What the intervals hold of one kind, closed and dropped ones first, the open one last. */
  function All<T>(f: Interval -> seq<T>, t: State): seq<T> {
    Flat(f, t.finished) + if t.current.Some? then f(t.current.value) else []
  }

  lemma CloseAll<T>(f: Interval -> seq<T>, t: State, atMS: int, forced: Option<Result>)
    ensures var c := CloseInterval(t, atMS, forced);
            All(f, c) == if t.current.None? then All(f, t) else Flat(f, t.finished) + f(Last(c.finished))
  {
    hide CloseInterval;
    CloseFrame(t, atMS, forced);
  }

  lemma CloseKeepsAll<T>(f: Interval -> seq<T>, t: State, atMS: int, forced: Option<Result>)
    requires forall a, b | SameRows(a, b) :: f(a) == f(b)
    ensures All(f, CloseInterval(t, atMS, forced)) == All(f, t)
  {
    hide CloseInterval, SameRows, Flat;
    CloseAll(f, t, atMS, forced);
    CloseFrame(t, atMS, forced);
  }

  lemma OpenKeepsAll<T>(f: Interval -> seq<T>, cfg: Settings, t: State, i: Input)
    requires forall a, b | SameRows(a, b) :: f(a) == f(b)
    requires forall k, p, at, r :: f(NewInterval(k, p, at, r)) == []
    ensures All(f, Opened(cfg, t, i)) == All(f, t)
  {
    hide CloseInterval, EnsureInterval, SynthKey, SameRows, Flat, NewInterval;
    EnsureShape(cfg, t, KeyOf(i), StateOf(t, i), OpenAtMS(i));
    var forced := if Overdue(cfg, t, OpenAtMS(i)) then Some(ForcedResult(t.current.value)) else None;
    CloseKeepsAll(f, t, OpenAtMS(i), forced);
    CloseFrame(t, OpenAtMS(i), forced);
  }

  // ---------------------------------------------------------------------------
  // The source rows in the buffers
  // ---------------------------------------------------------------------------

  function EventRows(iv: Interval): seq<FsmEvent> {
    seq(|iv.events|, k requires 0 <= k < |iv.events| => iv.events[k].row)
  }

  function ToggleRows(iv: Interval): seq<Toggle> {
    seq(|iv.toggles|, k requires 0 <= k < |iv.toggles| => iv.toggles[k].row)
  }

  datatype ConfigFact = ConfigFact(key: string, oldValue: string, newValue: string, atMS: int)

  function ConfigFacts(iv: Interval): seq<ConfigFact> {
    seq(|iv.configs|, k requires 0 <= k < |iv.configs| =>
      ConfigFact(iv.configs[k].key, iv.configs[k].oldValue, iv.configs[k].newValue, iv.configs[k].changedAtMS))
  }

  datatype FaultFact = FaultFact(faultType: string, atMS: int, state: string, step: int, message: string)

  function FaultFacts(iv: Interval): seq<FaultFact> {
    seq(|iv.faults|, k requires 0 <= k < |iv.faults| =>
      FaultFact(iv.faults[k].faultType, iv.faults[k].raisedAtMS, iv.faults[k].state, iv.faults[k].step,
                iv.faults[k].message))
  }

  // What one input brings.

  function EventsIn(i: Input): seq<FsmEvent> {
    if i.Apply? && i.row.EventRow? then [i.row.event] else []
  }

  function TogglesIn(i: Input): seq<Toggle> {
    if i.Apply? && i.row.ToggleRow? then [i.row.toggle] else []
  }

  function ConfigsIn(i: Input): seq<ConfigFact> {
    if i.Config? then [ConfigFact(i.key, i.oldValue, i.newValue, AtMS(i))] else []
  }

  function FaultsIn(i: Input): seq<FaultFact> {
    if i.Apply? && i.row.FaultRow? then
      var f := i.row.fault;
      [FaultFact(f.faultType, Millis(f.ts), f.state, f.step, f.message)]
    else []
  }

  function FromAll<T>(f: Input -> seq<T>, inputs: seq<Input>): seq<T> {
    if inputs == [] then [] else FromAll(f, Front(inputs)) + f(Last(inputs))
  }

  lemma RecordBuffers(cfg: Settings, t: State, i: Input)
    requires t.current.Some?
    ensures var a, b := t.current.value, Record(cfg, t, i).current.value;
            && b.events == a.events + (if i.Apply? && i.row.EventRow?
                                       then [OutEvent(AtMS(i), a.orderKey, i.row.event)] else [])
            && b.toggles == a.toggles + (if i.Apply? && i.row.ToggleRow?
                                         then [OutToggle(AtMS(i), a.orderKey, i.row.toggle)] else [])
            && b.configs == a.configs + (if i.Config?
                                         then [OutConfig(AtMS(i), a.orderKey, i.key, i.oldValue, i.newValue)] else [])
  {
    hide RecordEvent, RecordFault, RecordStepRun, ApplyDoorSignals;
    if i.Apply? {
      match i.row {
        case EventRow(e) => EventBuffers(cfg, t, e, AtMS(i));
        case FaultRow(f) => FaultBuffers(cfg, t, f, AtMS(i));
        case StepRunRow(sr) => StepRunBuffers(cfg, t, sr);
        case _ =>
      }
    }
  }

  predicate SameSourceRows(a: Interval, b: Interval) {
    a.events == b.events && a.toggles == b.toggles && a.configs == b.configs
  }

  lemma FaultBuffers(cfg: Settings, t: State, f: Fault, atMS: int)
    requires t.current.Some?
    ensures SameSourceRows(t.current.value, RecordFault(cfg, t, f, atMS).current.value)
  {
    hide LedgerFaultKey, RecordLedgerFault;
  }

  lemma StepRunBuffers(cfg: Settings, t: State, sr: StepRun)
    requires t.current.Some?
    ensures SameSourceRows(t.current.value, RecordStepRun(cfg, t, sr).current.value)
  {
    hide StepRunFaultKey, StepRunEmits, StepRunFaultCounts, StepRunDwell;
  }

  lemma EventBuffers(cfg: Settings, t: State, e: FsmEvent, atMS: int)
    requires t.current.Some?
    ensures var a, b := t.current.value, RecordEvent(cfg, t, e, atMS).current.value;
            && b.events == a.events + [OutEvent(atMS, a.orderKey, e)]
            && b.toggles == a.toggles && b.configs == a.configs && b.faults == a.faults && b.doorEvents == a.doorEvents
  {
    hide RecordEvent;
  }

  /** What an input files as faults in the open interval: its own fault, or that of a step run that is kept and whose
      fault the ledger does not have. */
  function FaultsBy(cfg: Settings, t: State, i: Input): seq<FaultFact>
    requires t.current.Some?
  {
    if IsStepRun(i) then
      var sr := i.row.stepRun;
      if StepRunEmits(t, sr) && StepRunFaultCounts(cfg, t, sr)
      then [FaultFact(sr.faultType, Millis(sr.ended), sr.currentState, sr.step, sr.faultMessage)]
      else []
    else FaultsIn(i)
  }

  /** What the inputs of a run file as faults, one after the other. */
  ghost function FaultsFiled(cfg: Settings, inputs: seq<Input>): seq<FaultFact> {
    if inputs == [] then []
    else
      var t := Run(cfg, INITIAL, Front(inputs));
      FaultsFiled(cfg, Front(inputs)) + FaultsBy(cfg, Opened(cfg, t, Last(inputs)), Last(inputs))
  }

  lemma {:induction false} NoStepRunsNoMore(cfg: Settings, inputs: seq<Input>)
    requires forall k | 0 <= k < |inputs| :: !IsStepRun(inputs[k])
    ensures FaultsFiled(cfg, inputs) == FromAll(FaultsIn, inputs)
  {
    hide FaultsIn;
    if inputs != [] {
      NoStepRunsNoMore(cfg, Front(inputs));
      assert !IsStepRun(Last(inputs));
    }
  }

  lemma RecordFaults(cfg: Settings, t: State, i: Input)
    requires t.current.Some?
    ensures FaultFacts(Record(cfg, t, i).current.value) == FaultFacts(t.current.value) + FaultsBy(cfg, t, i)
  {
    hide TrackStateSpan, TrackDwell, LedgerFaultKey, RecordLedgerFault, ApplyDoorSignals, CountIn, RecordStepRun;
    if i.Apply? && i.row.EventRow? {
      EventBuffers(cfg, t, i.row.event, AtMS(i));
    } else if IsStepRun(i) {
      StepRunFaults(cfg, t, i.row.stepRun);
    }
  }

  lemma StepRunFaults(cfg: Settings, t: State, sr: StepRun)
    requires t.current.Some?
    ensures FaultFacts(RecordStepRun(cfg, t, sr).current.value)
         == FaultFacts(t.current.value) + FaultsBy(cfg, t, Apply(StepRunRow(sr)))
  {
    hide StepRunFaultKey, StepRunDwell, LedgerCovers;
  }

  /** One step adds to a buffer what its recording adds. */
  lemma StepAdds<T>(f: Interval -> seq<T>, more: seq<T>, cfg: Settings, t: State, i: Input)
    requires forall a, b | SameRows(a, b) :: f(a) == f(b)
    requires forall k, p, at, r :: f(NewInterval(k, p, at, r)) == []
    requires var t1 := Opened(cfg, t, i);
             f(Record(cfg, t1, i).current.value) == f(t1.current.value) + more
    ensures All(f, Step(cfg, t, i)) == All(f, t) + more
  {
    hide CloseInterval, EnsureInterval, Record, VerdictOf, Flat, SameRows, NewInterval;
    OpenKeepsAll(f, cfg, t, i);
    var t1 := Opened(cfg, t, i);
    CloseKeepsAll(f, Record(cfg, t1, i), AtMS(i), VerdictOf(cfg, t1, i));
  }

  lemma StepFiles(cfg: Settings, t: State, i: Input)
    ensures var s := Step(cfg, t, i);
            && All(EventRows, s) == All(EventRows, t) + EventsIn(i)
            && All(ToggleRows, s) == All(ToggleRows, t) + TogglesIn(i)
            && All(ConfigFacts, s) == All(ConfigFacts, t) + ConfigsIn(i)
            && All(FaultFacts, s) == All(FaultFacts, t) + FaultsBy(cfg, Opened(cfg, t, i), i)
  {
    hide CloseInterval, EnsureInterval, Record, VerdictOf, All, Step, Opened;
    var t1 := Opened(cfg, t, i);
    RecordBuffers(cfg, t1, i);
    StepAdds(EventRows, EventsIn(i), cfg, t, i);
    StepAdds(ToggleRows, TogglesIn(i), cfg, t, i);
    StepAdds(ConfigFacts, ConfigsIn(i), cfg, t, i);
    RecordFaults(cfg, t1, i);
    StepAdds(FaultFacts, FaultsBy(cfg, t1, i), cfg, t, i);
  }

  /** No source row is lost or filed twice: read in order, the buffers hold the applied rows, and as faults those of the
      fault rows and of the step runs that report one. */
  lemma {:induction false} RowsConserved(cfg: Settings, inputs: seq<Input>)
    ensures var t := Run(cfg, INITIAL, inputs);
            && All(EventRows, t) == FromAll(EventsIn, inputs)
            && All(ToggleRows, t) == FromAll(TogglesIn, inputs)
            && All(ConfigFacts, t) == FromAll(ConfigsIn, inputs)
            && All(FaultFacts, t) == FaultsFiled(cfg, inputs)
  {
    hide Step, Opened, EventsIn, TogglesIn, ConfigsIn, FaultsBy;
    if inputs != [] {
      RowsConserved(cfg, Front(inputs));
      StepFiles(cfg, Run(cfg, INITIAL, Front(inputs)), Last(inputs));
    }
  }
}
