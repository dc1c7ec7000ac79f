/** The result of an interval (cmd/projector/tracker.go) against the evidence it holds, on both paths. */
module Results {
  import opened Source
  import opened Intervals
  import opened TrackerSpec
  import opened Frames
  import opened Verdicts

  /** An event that reached the completion step. */
  predicate EventMarker(e: FsmEvent) {
    e.currentState == "AutoCycle" && e.stepTo == Some(19)
  }

  /** A step run that reached the completion step. */
  predicate StepRunMarker(d: OutDwell) {
    d.sourceKind == StepRuns && d.state == "AutoCycle" && d.step == Some(19)
  }

  ghost predicate Unmarked(iv: Interval) {
    && (forall k | 0 <= k < |iv.events| :: !EventMarker(iv.events[k].row))
    && (forall k | 0 <= k < |iv.stepDwells| :: !StepRunMarker(iv.stepDwells[k]))
  }

  /** No step run was filed after this dwell; dwells closed with the interval may follow it. */
  predicate LastStepRun(dwells: seq<OutDwell>, k: nat) {
    forall j | k < j < |dwells| :: dwells[j].sourceKind == Derived
  }

  /** The last event or the last step run is a completion marker, at this instant. */
  ghost predicate MarkedAt(iv: Interval, ms: int) {
    || (iv.events != [] && EventMarker(Last(iv.events).row) && Last(iv.events).eventAtMS == ms)
    || (exists k: nat | k < |iv.stepDwells| ::
          StepRunMarker(iv.stepDwells[k]) && iv.stepDwells[k].endedAtMS == ms && LastStepRun(iv.stepDwells, k))
  }

  predicate Synthetic(r: Result) {
    r == Idle || r == Maintenance || r == Manual || r == Error
  }

  /** What is known of an interval while it is open. */
  ghost predicate Undecided(iv: Interval) {
    if iv.isProduction then iv.result == Aborted && iv.faults == [] && Unmarked(iv) else Synthetic(iv.result)
  }

  /** The evidence for closing a production interval with this verdict. */
  ghost predicate Evidence(cfg: Settings, iv: Interval, verdict: Result, ms: int) {
    || (verdict == Completed && iv.faults == [] && MarkedAt(iv, ms))
    || (|iv.faults| == 1 && verdict == FaultResult(cfg.severity(iv.faults[0].faultType))
        && iv.faults[0].raisedAtMS == ms)
  }

  /** The result of a closed interval matches the evidence it holds. */
  ghost predicate Justified(cfg: Settings, iv: Interval) {
    if !iv.isProduction then Synthetic(iv.result)
    else Evidence(cfg, iv, iv.result, iv.endedMS) || (iv.result == Aborted && iv.faults == [] && Unmarked(iv))
  }

  // ---------------------------------------------------------------------------
  // Dwells derived from events are never markers
  // ---------------------------------------------------------------------------

  ghost predicate DerivedAfter(a: seq<OutDwell>, b: seq<OutDwell>) {
    a <= b && forall k | |a| <= k < |b| :: b[k].sourceKind == Derived
  }

  lemma CloseDwellDerives(t: State, lane: Lane, atMS: int)
    requires t.current.Some?
    ensures DerivedAfter(t.current.value.stepDwells, CloseDwell(t, lane, atMS).current.value.stepDwells)
  {
  }

  lemma DerivedTwice(a: seq<OutDwell>, b: seq<OutDwell>, c: seq<OutDwell>)
    requires DerivedAfter(a, b) && DerivedAfter(b, c)
    ensures DerivedAfter(a, c)
  {
  }

  lemma CloseDwellsDerive(t: State, atMS: int)
    requires t.current.Some?
    ensures DerivedAfter(t.current.value.stepDwells, CloseOpenDwells(t, atMS).current.value.stepDwells)
  {
    hide CloseDwell, DerivedAfter;
    var t1 := CloseDwell(t, Crusher, atMS);
    var t2 := CloseDwell(t1, Main, atMS);
    CloseDwellDerives(t, Crusher, atMS);
    CloseDwellDerives(t1, Main, atMS);
    CloseDwellDerives(t2, Tilter, atMS);
    var a, b := t.current.value.stepDwells, t1.current.value.stepDwells;
    DerivedTwice(a, b, t2.current.value.stepDwells);
    DerivedTwice(a, t2.current.value.stepDwells, CloseOpenDwells(t, atMS).current.value.stepDwells);
  }

  lemma CloseDerives(t: State, atMS: int, forced: Option<Result>)
    requires t.current.Some?
    ensures var c := CloseInterval(t, atMS, forced);
            c.finished != [] && DerivedAfter(t.current.value.stepDwells, Last(c.finished).stepDwells)
  {
    hide CloseOpenDwells, CloseStateSpan, DerivedAfter;
    CloseDwellsDerive(t, atMS);
  }

  lemma DerivedKeepsMarks(a: Interval, b: Interval, ms: int)
    requires a.events == b.events && DerivedAfter(a.stepDwells, b.stepDwells)
    ensures Unmarked(a) <==> Unmarked(b)
    ensures MarkedAt(a, ms) ==> MarkedAt(b, ms)
  {
    assert forall k | 0 <= k < |a.stepDwells| :: a.stepDwells[k] == b.stepDwells[k];
  }

  // ---------------------------------------------------------------------------
  // Recording
  // ---------------------------------------------------------------------------

  /** What an input leaves in a production interval supports the verdict it brings. */
  ghost predicate Supports(cfg: Settings, iv: Interval, verdict: Option<Result>, ms: int) {
    if iv.isProduction && verdict.Some? then Evidence(cfg, iv, verdict.value, ms) else verdict.None? && Undecided(iv)
  }

  lemma EventSupports(cfg: Settings, t: State, e: FsmEvent, i: Input)
    requires t.current.Some? && Undecided(t.current.value) && i == Apply(EventRow(e))
    ensures Supports(cfg, RecordEvent(cfg, t, e, AtMS(i)).current.value, VerdictOf(cfg, t, i), AtMS(i))
  {
    hide RecordEvent, CountIn, TrackDwell, TrackStateSpan;
    var iv, r := t.current.value, RecordEvent(cfg, t, e, AtMS(i)).current.value;
    EventDerives(cfg, t, e, AtMS(i));
    var mid := iv.(events := r.events);
    DerivedKeepsMarks(mid, r, AtMS(i));
    assert r.events == iv.events + [OutEvent(AtMS(i), iv.orderKey, e)] && r.faults == iv.faults by {
      EventKeeps(cfg, t, e, AtMS(i));
    }
    if EventMarker(e) {
      assert EventMarker(r.events[|iv.events|].row) && r.events[|iv.events|].eventAtMS == AtMS(i);
    }
  }

  lemma EventKeeps(cfg: Settings, t: State, e: FsmEvent, atMS: int)
    requires t.current.Some?
    ensures var a, b := t.current.value, RecordEvent(cfg, t, e, atMS).current.value;
            b.events == a.events + [OutEvent(atMS, a.orderKey, e)] && b.faults == a.faults
  {
    hide RecordEvent;
  }

  lemma EventDerives(cfg: Settings, t: State, e: FsmEvent, atMS: int)
    requires t.current.Some?
    ensures DerivedAfter(t.current.value.stepDwells, RecordEvent(cfg, t, e, atMS).current.value.stepDwells)
  {
    hide TrackDwell, TrackStateSpan;
    var t2 := TrackStateSpan(t.(current := Some(CountIn(t.current.value, e))), e, atMS);
    TrackDwellDerives(t2, e, atMS);
  }

  lemma TrackDwellDerives(t: State, e: FsmEvent, atMS: int)
    requires t.current.Some?
    ensures DerivedAfter(t.current.value.stepDwells, TrackDwell(t, e, atMS).current.value.stepDwells)
  {
    hide CloseDwell, CountEvent;
    var lane := LaneForState(e.currentState);
    var t1 := if lane in t.openDwells then t.(openDwells := t.openDwells[lane := CountEvent(t.openDwells[lane], e)])
              else t;
    CloseDwellDerives(t1, lane, atMS);
  }

  lemma FaultSupports(cfg: Settings, t: State, f: Fault, i: Input)
    requires t.current.Some? && Undecided(t.current.value) && i == Apply(FaultRow(f))
    ensures Supports(cfg, RecordFault(cfg, t, f, AtMS(i)).current.value, VerdictOf(cfg, t, i), AtMS(i))
  {
    hide LedgerFaultKey, RecordLedgerFault, Unmarked, MarkedAt;
  }

  lemma StepRunSupports(cfg: Settings, t: State, sr: StepRun, i: Input)
    requires t.current.Some? && Undecided(t.current.value) && i == Apply(StepRunRow(sr))
    ensures Supports(cfg, RecordStepRun(cfg, t, sr).current.value, VerdictOf(cfg, t, i), AtMS(i))
  {
    hide StepRunFaultKey, LedgerCovers;
    var iv, r := t.current.value, RecordStepRun(cfg, t, sr).current.value;
    if StepRunEmits(t, sr) {
      var n := |iv.stepDwells|;
      assert r.stepDwells[..n] == iv.stepDwells && r.stepDwells[n].endedAtMS == AtMS(i);
    }
  }

  lemma OtherSupports(cfg: Settings, t: State, i: Input)
    requires t.current.Some? && Undecided(t.current.value)
    requires i.Apply? ==> i.row.OrderRow? || i.row.ToggleRow?
    ensures Supports(cfg, Record(cfg, t, i).current.value, VerdictOf(cfg, t, i), AtMS(i))
  {
    hide RecordEvent, RecordFault, RecordStepRun;
  }

  lemma RecordSupports(cfg: Settings, t: State, i: Input)
    requires t.current.Some? && Undecided(t.current.value)
    ensures Supports(cfg, Record(cfg, t, i).current.value, VerdictOf(cfg, t, i), AtMS(i))
  {
    hide Supports, Undecided, VerdictOf, RecordEvent, RecordFault, RecordStepRun;
    if i.Config? || i.row.OrderRow? || i.row.ToggleRow? {
      OtherSupports(cfg, t, i);
    } else {
      match i.row {
        case EventRow(e) => EventSupports(cfg, t, e, i);
        case FaultRow(f) => FaultSupports(cfg, t, f, i);
        case StepRunRow(sr) => StepRunSupports(cfg, t, sr, i);
      }
    }
  }

  // ---------------------------------------------------------------------------
  // Whole runs
  // ---------------------------------------------------------------------------

  /** The dominant fault type of a kept interval is its most frequent one, the smallest such on a tie. */
  ghost predicate DominanceShown(iv: Interval) {
    iv.startedMS < iv.endedMS ==>
      if iv.faultTypeCounts == map[] then iv.dominantFaultType == ""
      else IsDominant(iv.dominantFaultType, iv.faultTypeCounts)
  }

  ghost predicate Good(cfg: Settings, iv: Interval) {
    Tallied(cfg, iv) && Justified(cfg, iv) && DominanceShown(iv)
  }

  ghost predicate AllGood(cfg: Settings, t: State) {
    && (t.current.Some? ==> Tallied(cfg, t.current.value) && Undecided(t.current.value))
    && forall k | 0 <= k < |t.finished| :: Good(cfg, t.finished[k])
  }

  /** A closing that either keeps the result, aborts a production interval, or has evidence. */
  ghost predicate MayClose(cfg: Settings, iv: Interval, atMS: int, forced: Option<Result>) {
    || (forced.Some? && iv.isProduction && Evidence(cfg, iv, forced.value, atMS))
    || (Undecided(iv) && (forced.None? || forced.value == iv.result))
  }

  lemma SealedJustified(cfg: Settings, iv: Interval, r: Interval, atMS: int, forced: Option<Result>)
    requires MayClose(cfg, iv, atMS, forced)
    requires IsSealed(iv, r, atMS, forced) && DerivedAfter(iv.stepDwells, r.stepDwells)
    ensures Justified(cfg, r)
  {
    hide Unmarked, MarkedAt, SameTally, DerivedAfter, FaultResult;
    DerivedKeepsMarks(iv, r, atMS);
  }

  lemma SealedDominance(cfg: Settings, t: State, atMS: int, forced: Option<Result>)
    requires t.current.Some? && Tallied(cfg, t.current.value)
    ensures var c := CloseInterval(t, atMS, forced); c.finished != [] && DominanceShown(Last(c.finished))
  {
    hide CloseOpenDwells, CloseStateSpan, IsDominant, DominantKey, EventsTally;
    CountsArePositive(cfg, t.current.value);
    if t.current.value.faultTypeCounts == map[] {
      NoDominantKey();
    } else {
      DominantKeyExists(t.current.value.faultTypeCounts);
    }
  }

  lemma CountsArePositive(cfg: Settings, iv: Interval)
    requires Tallied(cfg, iv)
    ensures Positive(iv.faultTypeCounts) == iv.faultTypeCounts
  {
    hide EventsTally;
  }

  lemma NoDominantKey()
    ensures DominantKey(map[]) == ""
  {
    assert forall k :: !IsDominant(k, map[]);
  }

  lemma CloseGood(cfg: Settings, t: State, atMS: int, forced: Option<Result>)
    requires forall k | 0 <= k < |t.finished| :: Good(cfg, t.finished[k])
    requires t.current.Some? ==> Tallied(cfg, t.current.value) && MayClose(cfg, t.current.value, atMS, forced)
    ensures AllGood(cfg, CloseInterval(t, atMS, forced))
  {
    hide CloseInterval, Tallied, Justified, DominanceShown, MayClose, SameTally, DerivedAfter;
    CloseFrame(t, atMS, forced);
    if t.current.Some? {
      var c := CloseInterval(t, atMS, forced);
      CloseDerives(t, atMS, forced);
      SealedJustified(cfg, t.current.value, Last(c.finished), atMS, forced);
      SealedDominance(cfg, t, atMS, forced);
      SameTallied(cfg, t.current.value, Last(c.finished));
      assert c.finished == t.finished + [Last(c.finished)];
    }
  }

  lemma FreshGood(cfg: Settings, t: State, orderKey: string, state: string, atMS: int)
    requires AllGood(cfg, t)
    ensures AllGood(cfg, Fresh(t, orderKey, state, atMS))
  {
    hide SynthKey, Tallied, Good;
    var iv := Fresh(t, orderKey, state, atMS).current.value;
    FreshTallied(cfg, iv.orderKey, iv.isProduction, atMS, iv.result);
  }

  lemma OpenGood(cfg: Settings, t: State, i: Input)
    requires AllGood(cfg, t)
    ensures AllGood(cfg, Opened(cfg, t, i))
  {
    hide CloseInterval, EnsureInterval, Fresh, Good, Tallied, Unmarked;
    EnsureShape(cfg, t, KeyOf(i), StateOf(t, i), OpenAtMS(i));
    var forced := if Overdue(cfg, t, OpenAtMS(i)) then Some(ForcedResult(t.current.value)) else None;
    CloseGood(cfg, t, OpenAtMS(i), forced);
    FreshGood(cfg, CloseInterval(t, OpenAtMS(i), forced), KeyOf(i), StateOf(t, i), OpenAtMS(i));
  }

  lemma StepGood(cfg: Settings, t: State, i: Input)
    requires AllGood(cfg, t)
    ensures AllGood(cfg, Step(cfg, t, i))
  {
    hide CloseInterval, Opened, Record, VerdictOf, Good, Tallied, Undecided, Evidence;
    OpenGood(cfg, t, i);
    var t1 := Opened(cfg, t, i);
    RecordTallied(cfg, t1, i);
    RecordSupports(cfg, t1, i);
    if VerdictOf(cfg, t1, i).Some? {
      CloseGood(cfg, Record(cfg, t1, i), AtMS(i), VerdictOf(cfg, t1, i));
    }
  }

  lemma {:induction false} RunGood(cfg: Settings, inputs: seq<Input>)
    ensures AllGood(cfg, Run(cfg, INITIAL, inputs))
  {
    hide Step, Good;
    if inputs != [] {
      RunGood(cfg, Front(inputs));
      StepGood(cfg, Run(cfg, INITIAL, Front(inputs)), Last(inputs));
    }
  }

  /** A completed production interval has a completion marker as its last event or step run, at its end, and no fault, a
      faulted one exactly one fault, of the severity its result tells and raised at its end, and an aborted one
      neither. */
  ghost predicate VerdictExact(cfg: Settings, iv: Interval) {
    && (iv.result == Completed <==> iv.faults == [] && !Unmarked(iv))
    && (iv.result == Completed ==> MarkedAt(iv, iv.endedMS))
    && (iv.result == Aborted <==> iv.faults == [] && Unmarked(iv))
    && (iv.result == FaultedRecoverable <==> iv.faults != [] && iv.faults[0].severity == Recoverable)
    && (iv.result == FaultedNonRecoverable <==> iv.faults != [] && iv.faults[0].severity == NonRecoverable)
    && (iv.faults != [] ==> |iv.faults| == 1 && iv.faults[0].raisedAtMS == iv.endedMS)
  }

  lemma JustifiedIsExact(cfg: Settings, iv: Interval)
    requires Good(cfg, iv) && iv.isProduction
    ensures VerdictExact(cfg, iv)
  {
    hide EventsTally, CountsTypes, IsDominant;
    if MarkedAt(iv, iv.endedMS) {
      assert !Unmarked(iv);
    }
  }

  /** On both paths, every interval a run closes, kept or dropped, has a verdict its own rows account for,
      and counters and a fault summary that describe those rows. */
  lemma VerdictsSound(cfg: Settings, inputs: seq<Input>, closeAt: int, iv: Interval)
    requires iv in WholeRun(cfg, inputs, closeAt).finished
    ensures Tallied(cfg, iv) && DominanceShown(iv)
    ensures if iv.isProduction then VerdictExact(cfg, iv) else Synthetic(iv.result)
  {
    hide Run, CloseInterval, Tallied, DominanceShown, Unmarked, MarkedAt, VerdictExact;
    var t := Run(cfg, INITIAL, inputs);
    RunGood(cfg, inputs);
    FlushIsClose(cfg, inputs, closeAt);
    CloseGood(cfg, t, FlushAt(t, closeAt), FlushResult(t));
    assert Good(cfg, iv);
    if iv.isProduction {
      JustifiedIsExact(cfg, iv);
    }
  }
}
