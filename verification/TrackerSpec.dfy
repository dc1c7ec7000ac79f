/** The tracker as a function on states: what each operation of cmd/projector/tracker.go computes. */
module TrackerSpec {
  import opened Source
  import opened Intervals

  datatype OpenSpan = OpenSpan(state: string, enteredMS: int, entryReason: string)

  datatype OpenDwell = OpenDwell(state: string, step: Option<int>, startedMS: int, seqIndex: int,
                                 events: int, ioEvents: int, transitions: int, faults: int)

  datatype OpenDoor = OpenDoor(openedMS: int, stateAtOpen: string, stepAtOpen: Option<int>, openedInError: bool,
                               resetCount: int, firstResetMS: Option<int>, lastResetMS: Option<int>)

  datatype LedgerFault = LedgerFault(faultType: string, atMS: int)

  datatype Settings = Settings(useStepRuns: bool, stepRunFaults: bool, maxIntervalMS: int,
                               severity: string -> Severity)

  // `finished` is a history: every interval that was closed, dropped ones included. The program has
  // `closed` only, the intervals waiting to be written.
  datatype State = State(
    current: Option<Interval>,
    openState: Option<OpenSpan>,
    openDwells: map<Lane, OpenDwell>,
    dwellSeq: map<Lane, int>,
    ledgerFaults: seq<LedgerFault>,
    openDoor: Option<OpenDoor>,
    synthCounter: nat,
    closed: seq<Interval>,
    finished: seq<Interval>)

  const INITIAL := State(None, None, map[], map[], [], None, 0, [], [])

  datatype Input =
    | Apply(row: Row)
    | Config(key: string, oldValue: string, newValue: string, at: int)

  /** The instant an input is applied at, in milliseconds. */
  function AtMS(i: Input): int {
    match i
    case Apply(r) => Millis(At(r))
    case Config(_, _, _, at) => Millis(at)
  }

  // ---------------------------------------------------------------------------
  // Closing
  // ---------------------------------------------------------------------------

  function DwellRow(d: OpenDwell, lane: Lane, orderKey: string, atMS: int): OutDwell {
    OutDwell(d.startedMS, atMS, atMS - d.startedMS, orderKey, lane, d.state, d.step, d.seqIndex,
             d.events, d.ioEvents, d.transitions, d.faults, Derived, "", "")
  }

  /** An interval after one of its dwells was closed. */
  function WithDwell(iv: Interval, d: OutDwell): Interval {
    iv.(dwellLog := iv.dwellLog + [d],
        stepDwells := if EmitsDwell(d.state, iv.isProduction) then iv.stepDwells + [d] else iv.stepDwells)
  }

  /** Nothing but the two dwell buffers differs. */
  predicate OnlyDwells(a: Option<Interval>, b: Option<Interval>) {
    a.Some? == b.Some?
    && (a.Some? ==> b.value == a.value.(stepDwells := b.value.stepDwells, dwellLog := b.value.dwellLog))
  }

  /** Nothing but the state spans differs. */
  predicate OnlySpans(a: Option<Interval>, b: Option<Interval>) {
    a.Some? == b.Some? && (a.Some? ==> b.value == a.value.(stateDurations := b.value.stateDurations))
  }

  function CloseDwell(t: State, lane: Lane, atMS: int): (r: State)
    ensures r == t.(openDwells := r.openDwells, current := r.current) && OnlyDwells(t.current, r.current)
    ensures t.current.Some? ==> r.openDwells == t.openDwells - {lane}
  {
    if lane !in t.openDwells || t.current.None? then t
    else
      var d := t.openDwells[lane];
      var iv := t.current.value;
      t.(openDwells := t.openDwells - {lane},
         current := Some(if atMS <= d.startedMS then iv else WithDwell(iv, DwellRow(d, lane, iv.orderKey, atMS))))
  }

  /** Lanes in alphabetical order. */
  function CloseOpenDwells(t: State, atMS: int): (r: State)
    ensures r == t.(openDwells := r.openDwells, current := r.current) && OnlyDwells(t.current, r.current)
    ensures t.current.Some? ==> r.openDwells == map[]
  {
    var r := CloseDwell(CloseDwell(CloseDwell(t, Crusher, atMS), Main, atMS), Tilter, atMS);
    assert t.current.Some? ==> forall lane | lane in r.openDwells :: lane != Crusher && lane != Main && lane != Tilter;
    r
  }

  function CloseStateSpan(t: State, atMS: int, reason: string): (r: State)
    ensures r == t.(openState := r.openState, current := r.current) && OnlySpans(t.current, r.current)
  {
    if t.openState.None? || t.current.None? || atMS <= t.openState.value.enteredMS then t
    else
      var o := t.openState.value;
      var iv := t.current.value;
      var row := OutSpan(o.enteredMS, atMS, atMS - o.enteredMS, iv.orderKey, o.state, o.entryReason, reason);
      t.(openState := None, current := Some(iv.(stateDurations := iv.stateDurations + [row])))
  }

  /** The interval as it is left behind by closing it. */
  ghost function Sealed(iv: Interval, atMS: int, forced: Option<Result>): Interval {
    var r := iv.(endedMS := atMS, result := if forced.Some? then forced.value else iv.result);
    if atMS <= iv.startedMS then r else r.(dominantFaultType := DominantKey(Positive(iv.faultTypeCounts)))
  }

  ghost function CloseInterval(t: State, atMS: int, forced: Option<Result>): State {
    if t.current.None? then t
    else
      var t1 := CloseStateSpan(CloseOpenDwells(t, atMS), atMS, "interval_end");
      var iv := Sealed(t1.current.value, atMS, forced);
      t1.(current := None,
          finished := t1.finished + [iv],
          closed := if iv.endedMS <= iv.startedMS then t1.closed else t1.closed + [iv])
  }

  // ---------------------------------------------------------------------------
  // Opening
  // ---------------------------------------------------------------------------

  /** A new open interval; the one before it is closed already. */
  function Fresh(t: State, orderKey: string, state: string, atMS: int): (r: State)
    ensures r.current.Some?
    ensures r == t.(current := r.current, dwellSeq := map[], synthCounter := r.synthCounter)
  {
    if orderKey != "" then t.(current := Some(NewInterval(orderKey, true, atMS, Aborted)), dwellSeq := map[])
    else
      var want := ResultForState(state);
      var n := t.synthCounter + 1;
      t.(current := Some(NewInterval(SynthKey(want, atMS, n), false, atMS, want)), dwellSeq := map[], synthCounter := n)
  }

  /** Whether the open interval has reached the duration cap. */
  predicate Overdue(cfg: Settings, t: State, atMS: int) {
    t.current.Some? && cfg.maxIntervalMS > 0 && atMS - t.current.value.startedMS >= cfg.maxIntervalMS
  }

  /** Whether the open interval already serves this order key and state. */
  predicate Serves(t: State, orderKey: string, state: string) {
    && t.current.Some?
    && if orderKey != "" then t.current.value.orderKey == orderKey
       else !t.current.value.isProduction && t.current.value.result == ResultForState(state)
  }

  /** The duration cap aborts a production interval and keeps the result of any other. */
  function ForcedResult(iv: Interval): Result {
    if iv.isProduction then Aborted else iv.result
  }

  ghost function EnsureInterval(cfg: Settings, t: State, orderKey: string, state: string, atMS: int): (r: State)
    ensures r.current.Some?
  {
    var t1 := if Overdue(cfg, t, atMS) then CloseInterval(t, atMS, Some(ForcedResult(t.current.value))) else t;
    if Serves(t1, orderKey, state) then t1 else Fresh(CloseInterval(t1, atMS, None), orderKey, state, atMS)
  }

  /** Recording an input in the open interval neither closes nor renames it. */
  predicate StaysOpen(t: State, r: State)
    requires t.current.Some?
  {
    var a := t.current.value;
    && r.current.Some? && r.finished == t.finished && r.closed == t.closed && r.synthCounter == t.synthCounter
    && var b := r.current.value;
    && a.orderKey == b.orderKey && a.isProduction == b.isProduction && a.startedMS == b.startedMS
    && a.result == b.result
  }

  // ---------------------------------------------------------------------------
  // Orders and events
  // ---------------------------------------------------------------------------

  function RecordOrder(t: State, o: Order): (r: State)
    requires t.current.Some?
    ensures StaysOpen(t, r)
  {
    var iv := t.current.value;
    if iv.orderKey == o.orderKey
    then t.(current := Some(iv.(recipeID := Some(o.recipe), glassCount := Some(o.quantity))))
    else t
  }

  function TrackStateSpan(t: State, e: FsmEvent, atMS: int): (r: State)
    ensures r == t.(openState := r.openState, current := r.current) && OnlySpans(t.current, r.current)
  {
    var state := e.currentState;
    var span := Some(OpenSpan(state, atMS, e.kind));
    if state == "" || state == "Tilter" || state == "Crusher" then t
    else if t.openState.None? then t.(openState := span)
    else if t.openState.value.state == state then t
    else CloseStateSpan(t, atMS, e.kind).(openState := span)
  }

  function CountEvent(d: OpenDwell, e: FsmEvent): OpenDwell {
    d.(events := d.events + 1,
       ioEvents := d.ioEvents + if e.kind == "input_changed" then 1 else 0,
       transitions := d.transitions + if e.kind == "state_transition" then 1 else 0)
  }

  function StepOf(e: FsmEvent): Option<int> {
    if e.stepTo.Some? then e.stepTo else e.stepFrom
  }

  predicate SameDwell(d: OpenDwell, state: string, step: Option<int>) {
    d.state == state && d.step == step
  }

  function NextSeq(t: State, lane: Lane): int {
    if lane in t.dwellSeq then t.dwellSeq[lane] else 0
  }

  function TrackDwell(t: State, e: FsmEvent, atMS: int): (r: State)
    requires t.current.Some?
    ensures r == t.(openDwells := r.openDwells, dwellSeq := r.dwellSeq, current := r.current)
    ensures OnlyDwells(t.current, r.current)
  {
    var lane := LaneForState(e.currentState);
    var step := StepOf(e);
    var t1 := if lane in t.openDwells then t.(openDwells := t.openDwells[lane := CountEvent(t.openDwells[lane], e)])
              else t;
    if lane in t1.openDwells && SameDwell(t1.openDwells[lane], e.currentState, step) then t1
    else
      var t2 := CloseDwell(t1, lane, atMS);
      var n := NextSeq(t2, lane);
      var started := CountEvent(OpenDwell(e.currentState, step, atMS, n, 0, 0, 0, 0), e);
      t2.(dwellSeq := t2.dwellSeq[lane := n + 1], openDwells := t2.openDwells[lane := started])
  }

  /** The counters and the terminal fields an event moves. */
  function CountIn(iv: Interval, e: FsmEvent): Interval {
    iv.(fsmEventCount := iv.fsmEventCount + 1,
        uniqueStates := if e.currentState != "" then iv.uniqueStates + {e.currentState} else iv.uniqueStates,
        terminalState := if e.currentState != "" then e.currentState else iv.terminalState,
        terminalStep := if e.stepTo.Some? then e.stepTo else iv.terminalStep,
        stateTransitionCount := iv.stateTransitionCount + (if e.kind == "state_transition" then 1 else 0),
        stepEventCount := iv.stepEventCount + (if e.kind == "step_changed" then 1 else 0))
  }

  predicate IsCompletion(e: FsmEvent) {
    e.currentState == AUTO_CYCLE && e.stepTo == Some(AUTO_CYCLE_COMPLETE_STEP)
  }

  function AddEvent(t: State, e: FsmEvent, atMS: int): State
    requires t.current.Some?
  {
    var iv := t.current.value;
    t.(current := Some(iv.(events := iv.events + [OutEvent(atMS, iv.orderKey, e)])))
  }

  function RecordEvent(cfg: Settings, t: State, e: FsmEvent, atMS: int): (r: State)
    requires t.current.Some?
    ensures StaysOpen(t, r)
    ensures r == t.(openState := r.openState, openDwells := r.openDwells, dwellSeq := r.dwellSeq, current := r.current)
    ensures r.current.Some?
    ensures var a, b := AddEvent(t, e, atMS).current.value, r.current.value;
            b == CountIn(a, e).(stateDurations := b.stateDurations, stepDwells := b.stepDwells, dwellLog := b.dwellLog)
  {
    var t1 := t.(current := Some(CountIn(t.current.value, e)));
    var t2 := TrackStateSpan(t1, e, atMS);
    var t3 := if cfg.useStepRuns then t2 else TrackDwell(t2, e, atMS);
    AddEvent(t3, e, atMS)
  }

  // ---------------------------------------------------------------------------
  // Faults
  // ---------------------------------------------------------------------------

  const SLACK_MS: int := 2_000

  function KeepFrom(ledger: seq<LedgerFault>, cutoff: int): seq<LedgerFault> {
    if ledger == [] then []
    else
      var n := |ledger| - 1;
      KeepFrom(ledger[..n], cutoff) + if ledger[n].atMS >= cutoff then [ledger[n]] else []
  }

  function RecordLedgerFault(cfg: Settings, ledger: seq<LedgerFault>, faultType: string, atMS: int): seq<LedgerFault> {
    KeepFrom(ledger + [LedgerFault(faultType, atMS)], atMS - cfg.maxIntervalMS)
  }

  predicate LedgerCovers(ledger: seq<LedgerFault>, faultType: string, startMS: int, endMS: int) {
    exists i | 0 <= i < |ledger| ::
      ledger[i].faultType == faultType && startMS - SLACK_MS <= ledger[i].atMS <= endMS + SLACK_MS
  }

  /** `%s|%d|%s` */
  function LedgerFaultKey(f: Fault, orderKey: string): string {
    f.faultType + "|" + Text.Signed(f.id) + "|" + orderKey
  }

  /** `%s|sr%d|%s` */
  function StepRunFaultKey(sr: StepRun, orderKey: string): string {
    sr.faultType + "|sr" + Text.Signed(sr.id) + "|" + orderKey
  }

  function WithFault(iv: Interval, f: OutFault): Interval {
    iv.(faultCount := iv.faultCount + 1,
        faultTypeCounts := iv.faultTypeCounts[f.faultType :=
          (if f.faultType in iv.faultTypeCounts then iv.faultTypeCounts[f.faultType] else 0) + 1],
        firstFaultMS := if iv.firstFaultMS.None? then Some(f.raisedAtMS) else iv.firstFaultMS,
        lastFaultMS := Some(f.raisedAtMS),
        faults := iv.faults + [f])
  }

  function RecordFault(cfg: Settings, t: State, f: Fault, atMS: int): (r: State)
    requires t.current.Some?
    ensures StaysOpen(t, r)
  {
    var iv := t.current.value;
    var dwellSeq := if Main in t.openDwells then Some(t.openDwells[Main].seqIndex) else None;
    var row := OutFault(atMS, iv.orderKey, LedgerFaultKey(f, iv.orderKey), f.faultType, cfg.severity(f.faultType),
                        f.state, f.step, f.message, dwellSeq);
    t.(ledgerFaults := RecordLedgerFault(cfg, t.ledgerFaults, f.faultType, atMS),
       openDwells := if Main in t.openDwells
                     then t.openDwells[Main := t.openDwells[Main].(faults := t.openDwells[Main].faults + 1)]
                     else t.openDwells,
       current := Some(WithFault(iv, row)))
  }

  // ---------------------------------------------------------------------------
  // Step runs
  // ---------------------------------------------------------------------------

  function StepRunDwell(sr: StepRun, orderKey: string, seqIndex: int): OutDwell {
    var startMS, endMS := Millis(sr.started), Millis(sr.ended);
    OutDwell(startMS, endMS, endMS - startMS, orderKey, LaneForState(sr.currentState), sr.currentState, Some(sr.step),
             seqIndex, 0, 0, 0, if sr.faultType != "" then 1 else 0, StepRuns, sr.faultType, sr.faultMessage)
  }

  /** Whether the fault a step run carries has to be reported from the step run. */
  predicate StepRunFaultCounts(cfg: Settings, t: State, sr: StepRun) {
    sr.faultType != "" && cfg.stepRunFaults
    && !LedgerCovers(t.ledgerFaults, sr.faultType, Millis(sr.started), Millis(sr.ended))
  }

  function RecordStepRunFault(cfg: Settings, t: State, sr: StepRun, seqIndex: int): (r: State)
    requires t.current.Some?
    ensures StaysOpen(t, r)
  {
    var iv := t.current.value;
    t.(current := Some(WithFault(iv,
      OutFault(Millis(sr.ended), iv.orderKey, StepRunFaultKey(sr, iv.orderKey), sr.faultType,
               cfg.severity(sr.faultType), sr.currentState, sr.step, sr.faultMessage, Some(seqIndex)))))
  }

  /** A step run without a positive length leaves no trace, a suppressed one only its sequence number. */
  predicate StepRunEmits(t: State, sr: StepRun)
    requires t.current.Some?
  {
    Millis(sr.started) < Millis(sr.ended) && EmitsDwell(sr.currentState, t.current.value.isProduction)
  }

  function RecordStepRun(cfg: Settings, t: State, sr: StepRun): (r: State)
    requires t.current.Some?
    ensures StaysOpen(t, r)
  {
    if Millis(sr.ended) <= Millis(sr.started) then t
    else
      var lane := LaneForState(sr.currentState);
      var n := NextSeq(t, lane);
      var iv := t.current.value;
      var t1 := t.(dwellSeq := t.dwellSeq[lane := n + 1],
                   current := Some(WithDwell(iv, StepRunDwell(sr, iv.orderKey, n))));
      if StepRunEmits(t, sr) && StepRunFaultCounts(cfg, t, sr) then RecordStepRunFault(cfg, t1, sr, n) else t1
  }

  // ---------------------------------------------------------------------------
  // Toggles and doors
  // ---------------------------------------------------------------------------

  const MAIN_DOOR_SWITCH := "X0.0"
  const CIP_BYPASS_SWITCH := "X0.7"

  // The door switch reads 1 while the door is closed.

  predicate DoorOpens(s: Toggle) {
    s.inputID == MAIN_DOOR_SWITCH && s.valueFrom == 1 && s.valueTo == 0
  }

  predicate DoorCloses(s: Toggle) {
    s.inputID == MAIN_DOOR_SWITCH && s.valueFrom == 0 && s.valueTo == 1
  }

  predicate ResetRises(s: Toggle) {
    s.inputID == CIP_BYPASS_SWITCH && s.valueFrom == 0 && s.valueTo == 1
  }

  function CountReset(d: OpenDoor, atMS: int): OpenDoor {
    d.(resetCount := d.resetCount + 1,
       firstResetMS := if d.firstResetMS.None? then Some(atMS) else d.firstResetMS,
       lastResetMS := Some(atMS))
  }

  function DoorRow(d: OpenDoor, s: Toggle, orderKey: string, atMS: int): OutDoor {
    OutDoor(d.openedMS, atMS, atMS - d.openedMS, orderKey, d.resetCount, d.firstResetMS, d.lastResetMS,
            if d.firstResetMS.Some? then Some(d.firstResetMS.value - d.openedMS) else None,
            d.stateAtOpen, d.stepAtOpen, s.currentState, s.currentStep, d.openedInError)
  }

  function CloseDoorEpisode(t: State, s: Toggle, atMS: int): State {
    if t.openDoor.None? || t.current.None? || atMS <= t.openDoor.value.openedMS then t.(openDoor := None)
    else
      var iv := t.current.value;
      t.(openDoor := None,
         current := Some(iv.(doorEvents := iv.doorEvents + [DoorRow(t.openDoor.value, s, iv.orderKey, atMS)])))
  }

  function ApplyDoorSignals(t: State, s: Toggle, atMS: int): (r: State)
    ensures r == t.(openDoor := r.openDoor, current := r.current) && r.current.Some? == t.current.Some?
    ensures r.current.Some? ==> r.current.value == t.current.value.(doorEvents := r.current.value.doorEvents)
  {
    if DoorOpens(s) then
      t.(openDoor := Some(OpenDoor(atMS, s.currentState, s.currentStep, s.currentState == "Error", 0, None, None)))
    else if DoorCloses(s) then CloseDoorEpisode(t, s, atMS)
    else if ResetRises(s) && t.openDoor.Some? then t.(openDoor := Some(CountReset(t.openDoor.value, atMS)))
    else t
  }

  function AddToggle(t: State, s: Toggle, atMS: int): State
    requires t.current.Some?
  {
    var iv := t.current.value;
    t.(current := Some(iv.(toggles := iv.toggles + [OutToggle(atMS, iv.orderKey, s)])))
  }

  // ---------------------------------------------------------------------------
  // Configuration, flushing
  // ---------------------------------------------------------------------------

  /** The state text a config change asks for: the result text of the open synthetic interval. */
  function ConfigState(t: State): string {
    if t.current.Some? && !t.current.value.isProduction then ResultText(t.current.value.result) else ""
  }

  function RecordConfig(t: State, key: string, oldValue: string, newValue: string, atMS: int): (r: State)
    requires t.current.Some?
    ensures StaysOpen(t, r)
  {
    var iv := t.current.value;
    t.(current := Some(iv.(configs := iv.configs + [OutConfig(atMS, iv.orderKey, key, oldValue, newValue)])))
  }

  ghost function FlushOpen(t: State, atMS: int): State {
    if t.current.None? then t
    else
      var iv := t.current.value;
      CloseInterval(t, if atMS <= iv.startedMS then iv.startedMS + 1 else atMS,
                    Some(ForcedResult(iv)))
  }

  // ---------------------------------------------------------------------------
  // One input: make sure of an interval, record the input in it, close the interval on a verdict
  // ---------------------------------------------------------------------------

  function KeyOf(i: Input): string {
    match i
    case Config(_, _, _, _) => ""
    case Apply(r) =>
      match r
      case OrderRow(o) => o.orderKey
      case EventRow(e) => e.orderKey
      case StepRunRow(sr) => sr.orderKey
      case FaultRow(f) => f.orderKey
      case ToggleRow(s) => s.orderKey
  }

  function StateOf(t: State, i: Input): string {
    match i
    case Config(_, _, _, _) => ConfigState(t)
    case Apply(r) =>
      match r
      case OrderRow(o) => AUTO_CYCLE
      case EventRow(e) => e.currentState
      case StepRunRow(sr) => sr.currentState
      case FaultRow(f) => f.state
      case ToggleRow(s) => s.currentState
  }

  /** A step run asks for an interval at its start, everything else at its instant. */
  function OpenAtMS(i: Input): int {
    if i.Apply? && i.row.StepRunRow? then Millis(i.row.stepRun.started) else AtMS(i)
  }

  function Record(cfg: Settings, t: State, i: Input): (r: State)
    requires t.current.Some?
    ensures StaysOpen(t, r)
  {
    match i
    case Config(k, o, n, _) => RecordConfig(t, k, o, n, AtMS(i))
    case Apply(r) =>
      match r
      case OrderRow(o) => RecordOrder(t, o)
      case EventRow(e) => RecordEvent(cfg, t, e, AtMS(i))
      case StepRunRow(sr) => RecordStepRun(cfg, t, sr)
      case FaultRow(f) => RecordFault(cfg, t, f, AtMS(i))
      case ToggleRow(s) => AddToggle(ApplyDoorSignals(t, s, AtMS(i)), s, AtMS(i))
  }

  /** The result an input closes the production interval t.current with, if any. */
  function VerdictOf(cfg: Settings, t: State, i: Input): Option<Result>
    requires t.current.Some?
  {
    if !t.current.value.isProduction || i.Config? then None
    else
      match i.row
      case EventRow(e) => if IsCompletion(e) then Some(Completed) else None
      case FaultRow(f) => Some(FaultResult(cfg.severity(f.faultType)))
      case StepRunRow(sr) =>
        if !StepRunEmits(t, sr) then None
        else if StepRunFaultCounts(cfg, t, sr) then Some(FaultResult(cfg.severity(sr.faultType)))
        else if sr.currentState == AUTO_CYCLE && sr.step == AUTO_CYCLE_COMPLETE_STEP then Some(Completed)
        else None
      case _ => None
  }

  ghost function Opened(cfg: Settings, t: State, i: Input): (r: State)
    ensures r.current.Some?
  {
    EnsureInterval(cfg, t, KeyOf(i), StateOf(t, i), OpenAtMS(i))
  }

  ghost function Step(cfg: Settings, t: State, i: Input): State {
    var t1 := Opened(cfg, t, i);
    var t2 := Record(cfg, t1, i);
    var verdict := VerdictOf(cfg, t1, i);
    if verdict.Some? then CloseInterval(t2, AtMS(i), verdict) else t2
  }

  ghost function Run(cfg: Settings, t: State, inputs: seq<Input>): State {
    if inputs == [] then t
    else Step(cfg, Run(cfg, t, inputs[..|inputs| - 1]), inputs[|inputs| - 1])
  }
}
