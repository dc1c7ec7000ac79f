/** What belongs to an interval, and why it ends (cmd/projector/tracker.go), on both paths. */
module Attribution {
  import opened Source
  import opened Text
  import opened Intervals
  import opened TrackerSpec
  import opened Frames
  import opened Timeline
  import opened Buffers

  // ---------------------------------------------------------------------------
  // Rows carry the key of their interval
  // ---------------------------------------------------------------------------

  /** All rows filed in an interval carry its order key. */
  ghost predicate OwnsRows(iv: Interval) {
    && (forall k | 0 <= k < |iv.stateDurations| :: iv.stateDurations[k].orderKey == iv.orderKey)
    && (forall k | 0 <= k < |iv.stepDwells| :: iv.stepDwells[k].orderKey == iv.orderKey)
    && (forall k | 0 <= k < |iv.faults| :: iv.faults[k].orderKey == iv.orderKey)
    && (forall k | 0 <= k < |iv.toggles| :: iv.toggles[k].orderKey == iv.orderKey)
    && (forall k | 0 <= k < |iv.doorEvents| :: iv.doorEvents[k].orderKey == iv.orderKey)
    && (forall k | 0 <= k < |iv.configs| :: iv.configs[k].orderKey == iv.orderKey)
  }

  /** The machine state an interval outside production stands for. */
  predicate StandsFor(r: Result, state: string) {
    match r
    case Maintenance => state == "Maintenance"
    case Manual => state == "Manual"
    case Error => state == "Error"
    case Idle => state != "Maintenance" && state != "Manual" && state != "Error"
    case _ => false
  }

  /** A row with this order key and state belongs in the interval: it names the interval's order, or no order while the
      machine is in the state the interval stands for. */
  predicate Belongs(iv: Interval, orderKey: string, state: string) {
    if iv.isProduction then orderKey == iv.orderKey != ""
    else orderKey == iv.orderKey || (orderKey == "" && StandsFor(iv.result, state))
  }

  ghost predicate RowsBelong(iv: Interval) {
    && (forall k | 0 <= k < |iv.events| :: Belongs(iv, iv.events[k].row.orderKey, iv.events[k].row.currentState))
    && (forall k | 0 <= k < |iv.toggles| :: Belongs(iv, iv.toggles[k].row.orderKey, iv.toggles[k].row.currentState))
  }

  /** The key of an interval outside production: the name of its state, its start, and four digits. */
  ghost predicate NamesItself(iv: Interval) {
    if iv.isProduction then iv.orderKey != ""
    else
      var name := match iv.result
                  case Maintenance => "MAINT"
                  case Manual => "MANUAL"
                  case Error => "ERR"
                  case _ => "IDLE";
      exists n: nat :: iv.orderKey == name + ("-" + (Signed(iv.startedMS) + Pad(n % 10_000, 4)))
  }

  ghost predicate Proper(iv: Interval) {
    OwnsRows(iv) && RowsBelong(iv) && NamesItself(iv)
  }

  ghost predicate AllProper(t: State) {
    && (t.current.Some? ==> Proper(t.current.value))
    && forall k | 0 <= k < |t.finished| :: Proper(t.finished[k])
  }

  /** A closing keeps what an interval outside production stands for. */
  predicate KeepsResult(t: State, forced: Option<Result>) {
    t.current.Some? && !t.current.value.isProduction ==> forced.None? || forced.value == t.current.value.result
  }

  lemma CloseDwellOwns(t: State, lane: Lane, atMS: int)
    requires t.current.Some? && OwnsRows(t.current.value)
    ensures OwnsRows(CloseDwell(t, lane, atMS).current.value)
  {
  }

  lemma CloseDwellsOwn(t: State, atMS: int)
    requires t.current.Some? && OwnsRows(t.current.value)
    ensures OwnsRows(CloseOpenDwells(t, atMS).current.value)
  {
    hide CloseDwell, OwnsRows;
    CloseDwellOwns(t, Crusher, atMS);
    CloseDwellOwns(CloseDwell(t, Crusher, atMS), Main, atMS);
    CloseDwellOwns(CloseDwell(CloseDwell(t, Crusher, atMS), Main, atMS), Tilter, atMS);
  }

  lemma CloseSpanOwns(t: State, atMS: int, reason: string)
    requires t.current.Some? && OwnsRows(t.current.value)
    ensures OwnsRows(CloseStateSpan(t, atMS, reason).current.value)
  {
  }

  lemma CloseOwns(t: State, atMS: int, forced: Option<Result>)
    requires t.current.Some? && OwnsRows(t.current.value)
    ensures var c := CloseInterval(t, atMS, forced); c.finished != [] && OwnsRows(Last(c.finished))
  {
    hide CloseOpenDwells, CloseStateSpan, OwnsRows;
    var t1 := CloseOpenDwells(t, atMS);
    CloseDwellsOwn(t, atMS);
    CloseSpanOwns(t1, atMS, "interval_end");
    SealOwns(CloseStateSpan(t1, atMS, "interval_end").current.value, atMS, forced);
  }

  lemma SealOwns(iv: Interval, atMS: int, forced: Option<Result>)
    requires OwnsRows(iv)
    ensures OwnsRows(Sealed(iv, atMS, forced))
  {
  }

  lemma SameBelongs(a: Interval, b: Interval)
    requires RowsBelong(a) && NamesItself(a) && b.events == a.events && b.toggles == a.toggles
    requires b.orderKey == a.orderKey && b.isProduction == a.isProduction && b.startedMS == a.startedMS
    requires !a.isProduction ==> b.result == a.result
    ensures RowsBelong(b) && NamesItself(b)
  {
    hide Signed, Pad, StandsFor;
  }

  lemma CloseProper(t: State, atMS: int, forced: Option<Result>)
    requires AllProper(t) && KeepsResult(t, forced)
    ensures AllProper(CloseInterval(t, atMS, forced))
  {
    hide CloseInterval, OwnsRows, RowsBelong, NamesItself, SameTally;
    CloseFrame(t, atMS, forced);
    if t.current.Some? {
      var c := CloseInterval(t, atMS, forced);
      CloseOwns(t, atMS, forced);
      SameBelongs(t.current.value, Last(c.finished));
      assert c.finished == t.finished + [Last(c.finished)];
    }
  }

  // ---------------------------------------------------------------------------
  // Opening
  // ---------------------------------------------------------------------------

  lemma FreshProper(t: State, orderKey: string, state: string, atMS: int)
    requires AllProper(t)
    ensures var r := Fresh(t, orderKey, state, atMS); AllProper(r) && Belongs(r.current.value, orderKey, state)
  {
    hide Proper, Signed, Pad;
    var iv := Fresh(t, orderKey, state, atMS).current.value;
    FreshNames(t, orderKey, state, atMS);
    assert Proper(iv) by { EmptyProper(iv); }
  }

  lemma FreshNames(t: State, orderKey: string, state: string, atMS: int)
    ensures var iv := Fresh(t, orderKey, state, atMS).current.value;
            NamesItself(iv) && Belongs(iv, orderKey, state) && iv.startedMS == atMS
  {
    hide Signed, Pad;
  }

  lemma EmptyProper(iv: Interval)
    requires NamesItself(iv) && iv.events == [] && iv.stateDurations == [] && iv.stepDwells == [] && iv.faults == []
    requires iv.toggles == [] && iv.doorEvents == [] && iv.configs == []
    ensures Proper(iv)
  {
    hide NamesItself;
  }

  lemma ServesBelongs(t: State, orderKey: string, state: string)
    requires Serves(t, orderKey, state) && NamesItself(t.current.value)
    ensures Belongs(t.current.value, orderKey, state)
  {
    hide Signed, Pad;
  }

  lemma OpenProper(cfg: Settings, t: State, i: Input)
    requires AllProper(t)
    ensures var r := Opened(cfg, t, i); AllProper(r) && Belongs(r.current.value, KeyOf(i), StateOf(t, i))
  {
    hide CloseInterval, EnsureInterval, Fresh, OwnsRows, RowsBelong, NamesItself, Belongs;
    EnsureShape(cfg, t, KeyOf(i), StateOf(t, i), OpenAtMS(i));
    var forced := if Overdue(cfg, t, OpenAtMS(i)) then Some(ForcedResult(t.current.value)) else None;
    CloseProper(t, OpenAtMS(i), forced);
    if Opened(cfg, t, i) == t {
      if Serves(t, KeyOf(i), StateOf(t, i)) {
        ServesBelongs(t, KeyOf(i), StateOf(t, i));
      } else {
        FreshProper(CloseInterval(t, OpenAtMS(i), forced), KeyOf(i), StateOf(t, i), OpenAtMS(i));
      }
    } else {
      FreshProper(CloseInterval(t, OpenAtMS(i), forced), KeyOf(i), StateOf(t, i), OpenAtMS(i));
    }
  }

  // ---------------------------------------------------------------------------
  // Recording
  // ---------------------------------------------------------------------------

  lemma TrackDwellOwns(t: State, e: FsmEvent, atMS: int)
    requires t.current.Some? && OwnsRows(t.current.value)
    ensures OwnsRows(TrackDwell(t, e, atMS).current.value)
  {
    hide CloseDwell;
    var lane := LaneForState(e.currentState);
    var t1 := if lane in t.openDwells then t.(openDwells := t.openDwells[lane := CountEvent(t.openDwells[lane], e)])
              else t;
    CloseDwellOwns(t1, lane, atMS);
  }

  lemma TrackSpanOwns(t: State, e: FsmEvent, atMS: int)
    requires t.current.Some? && OwnsRows(t.current.value)
    ensures OwnsRows(TrackStateSpan(t, e, atMS).current.value)
  {
    hide CloseStateSpan;
    CloseSpanOwns(t, atMS, e.kind);
  }

  lemma EventOwns(cfg: Settings, t: State, e: FsmEvent, atMS: int)
    requires t.current.Some? && OwnsRows(t.current.value)
    ensures OwnsRows(RecordEvent(cfg, t, e, atMS).current.value)
  {
    hide TrackDwell, TrackStateSpan;
    var t1 := t.(current := Some(CountIn(t.current.value, e)));
    TrackSpanOwns(t1, e, atMS);
    TrackDwellOwns(TrackStateSpan(t1, e, atMS), e, atMS);
  }

  lemma FaultOwns(cfg: Settings, t: State, f: Fault, atMS: int)
    requires t.current.Some? && OwnsRows(t.current.value)
    ensures OwnsRows(RecordFault(cfg, t, f, atMS).current.value)
  {
    hide LedgerFaultKey, RecordLedgerFault;
  }

  lemma StepRunOwns(cfg: Settings, t: State, sr: StepRun)
    requires t.current.Some? && OwnsRows(t.current.value)
    ensures OwnsRows(RecordStepRun(cfg, t, sr).current.value)
  {
    hide StepRunFaultKey, LedgerCovers;
  }

  lemma ToggleOwns(t: State, s: Toggle, atMS: int)
    requires t.current.Some? && OwnsRows(t.current.value)
    ensures OwnsRows(AddToggle(ApplyDoorSignals(t, s, atMS), s, atMS).current.value)
  {
  }

  lemma OthersOwn(cfg: Settings, t: State, i: Input)
    requires t.current.Some? && OwnsRows(t.current.value) && (i.Config? || i.row.OrderRow?)
    ensures OwnsRows(Record(cfg, t, i).current.value)
  {
  }

  lemma RecordOwns(cfg: Settings, t: State, i: Input)
    requires t.current.Some? && OwnsRows(t.current.value)
    ensures OwnsRows(Record(cfg, t, i).current.value)
  {
    hide RecordEvent, RecordFault, RecordStepRun, ApplyDoorSignals, AddToggle, OwnsRows;
    if i.Config? || i.row.OrderRow? {
      OthersOwn(cfg, t, i);
    } else {
      match i.row {
        case EventRow(e) => EventOwns(cfg, t, e, AtMS(i));
        case FaultRow(f) => FaultOwns(cfg, t, f, AtMS(i));
        case StepRunRow(sr) => StepRunOwns(cfg, t, sr);
        case ToggleRow(s) => ToggleOwns(t, s, AtMS(i));
      }
    }
  }

  lemma RecordProper(cfg: Settings, t: State, i: Input, state: string)
    requires t.current.Some? && AllProper(t) && Belongs(t.current.value, KeyOf(i), state)
    requires i.Apply? && (i.row.EventRow? || i.row.ToggleRow?) ==> state == StateOf(t, i)
    ensures AllProper(Record(cfg, t, i))
  {
    hide Record, OwnsRows, NamesItself, Proper;
    var iv, r := t.current.value, Record(cfg, t, i).current.value;
    assert OwnsRows(iv) && RowsBelong(iv) && NamesItself(iv) by { Parts(iv); }
    RecordOwns(cfg, t, i);
    RecordBuffers(cfg, t, i);
    RowsStay(iv, r, i, state);
    SameName(iv, r);
    assert Proper(r) by { Whole(r); }
  }

  lemma Parts(iv: Interval)
    requires Proper(iv)
    ensures OwnsRows(iv) && RowsBelong(iv) && NamesItself(iv)
  {
  }

  lemma Whole(iv: Interval)
    requires OwnsRows(iv) && RowsBelong(iv) && NamesItself(iv)
    ensures Proper(iv)
  {
  }

  lemma SameName(a: Interval, b: Interval)
    requires NamesItself(a) && b.orderKey == a.orderKey && b.isProduction == a.isProduction
    requires b.startedMS == a.startedMS && b.result == a.result
    ensures NamesItself(b)
  {
    hide Signed, Pad;
  }

  lemma RowsStay(a: Interval, b: Interval, i: Input, state: string)
    requires RowsBelong(a) && Belongs(a, KeyOf(i), state)
    requires i.Apply? && i.row.EventRow? ==> state == i.row.event.currentState
    requires i.Apply? && i.row.ToggleRow? ==> state == i.row.toggle.currentState
    requires b.orderKey == a.orderKey && b.isProduction == a.isProduction && b.result == a.result
    requires b.events == a.events + (if i.Apply? && i.row.EventRow?
                                     then [OutEvent(AtMS(i), a.orderKey, i.row.event)] else [])
    requires b.toggles == a.toggles + (if i.Apply? && i.row.ToggleRow?
                                       then [OutToggle(AtMS(i), a.orderKey, i.row.toggle)] else [])
    ensures RowsBelong(b)
  {
    hide StandsFor;
  }

  // ---------------------------------------------------------------------------
  // Runs
  // ---------------------------------------------------------------------------

  lemma VerdictsKeepResult(cfg: Settings, t: State, r: State, i: Input)
    requires t.current.Some? && StaysOpen(t, r)
    ensures KeepsResult(r, VerdictOf(cfg, t, i))
  {
    hide StepRunEmits, StepRunFaultCounts;
  }

  lemma StepProper(cfg: Settings, t: State, i: Input)
    requires AllProper(t)
    ensures AllProper(Step(cfg, t, i))
  {
    hide CloseInterval, Opened, Record, VerdictOf, AllProper, Belongs, KeepsResult;
    OpenProper(cfg, t, i);
    var t1 := Opened(cfg, t, i);
    RecordProper(cfg, t1, i, StateOf(t, i));
    VerdictsKeepResult(cfg, t1, Record(cfg, t1, i), i);
    if VerdictOf(cfg, t1, i).Some? {
      CloseProper(Record(cfg, t1, i), AtMS(i), VerdictOf(cfg, t1, i));
    }
  }

  lemma {:induction false} RunProper(cfg: Settings, inputs: seq<Input>)
    ensures AllProper(Run(cfg, INITIAL, inputs))
  {
    hide Step, Proper;
    if inputs != [] {
      RunProper(cfg, Front(inputs));
      StepProper(cfg, Run(cfg, INITIAL, Front(inputs)), Last(inputs));
    }
  }

  /** On both paths: all rows of an interval carry its key; the events and toggles filed in it name its order, or no
      order while the machine is in the state the interval stands for; and outside production its key tells state and
      start. */
  lemma IntervalsAreProper(cfg: Settings, inputs: seq<Input>, closeAt: int, iv: Interval)
    requires iv in WholeRun(cfg, inputs, closeAt).finished
    ensures OwnsRows(iv) && RowsBelong(iv) && NamesItself(iv)
  {
    hide Run, CloseInterval, OwnsRows, RowsBelong, NamesItself;
    var t := Run(cfg, INITIAL, inputs);
    RunProper(cfg, inputs);
    FlushIsClose(cfg, inputs, closeAt);
    CloseProper(t, FlushAt(t, closeAt), FlushResult(t));
    assert Proper(iv);
  }

  /** The interval an input went to. */
  ghost function TakenBy(s: State): Interval
    requires s.current.Some? || s.finished != []
  {
    if s.current.Some? then s.current.value else Last(s.finished)
  }

  /** On both paths every row goes to an interval it belongs in, after whatever run. */
  lemma RowsGoWhereTheyBelong(cfg: Settings, inputs: seq<Input>, r: Row)
    ensures var s := Step(cfg, Run(cfg, INITIAL, inputs), Apply(r));
            && (s.current.Some? || s.finished != [])
            && var iv := TakenBy(s);
            && (r.OrderRow? ==> Belongs(iv, r.order.orderKey, "AutoCycle"))
            && (r.EventRow? ==> Belongs(iv, r.event.orderKey, r.event.currentState))
            && (r.StepRunRow? ==> Belongs(iv, r.stepRun.orderKey, r.stepRun.currentState))
            && (r.FaultRow? ==> Belongs(iv, r.fault.orderKey, r.fault.state))
            && (r.ToggleRow? ==> Belongs(iv, r.toggle.orderKey, r.toggle.currentState))
  {
    hide Run, CloseInterval, Opened, Record, VerdictOf, Proper, SameRows, SameTally, StandsFor, KeepsResult;
    var t, i := Run(cfg, INITIAL, inputs), Apply(r);
    RunProper(cfg, inputs);
    OpenProper(cfg, t, i);
    var t1 := Opened(cfg, t, i);
    var t2 := Record(cfg, t1, i);
    VerdictsKeepResult(cfg, t1, t2, i);
    CloseFrame(t2, AtMS(i), VerdictOf(cfg, t1, i));
    SameBelonging(t1, t2, AtMS(i), VerdictOf(cfg, t1, i), KeyOf(i), StateOf(t, i));
  }

  lemma SameBelonging(t: State, r: State, atMS: int, forced: Option<Result>, orderKey: string, state: string)
    requires t.current.Some? && StaysOpen(t, r) && Belongs(t.current.value, orderKey, state) && KeepsResult(r, forced)
    ensures Belongs(r.current.value, orderKey, state)
    ensures var c := CloseInterval(r, atMS, forced); c.finished != [] && Belongs(Last(c.finished), orderKey, state)
  {
    hide CloseInterval, StandsFor, SameRows, SameTally;
    CloseFrame(r, atMS, forced);
  }

  // ---------------------------------------------------------------------------
  // Why an interval ends
  // ---------------------------------------------------------------------------

  /** a ended on a verdict, at the duration cap, or because b serves another order or another state. */
  predicate EndsFor(cfg: Settings, a: Interval, b: Interval) {
    || Concluded(a)
    || (cfg.maxIntervalMS > 0 && a.endedMS - a.startedMS >= cfg.maxIntervalMS)
    || (if b.isProduction then a.orderKey != b.orderKey else a.isProduction || a.result != b.result)
  }

  ghost predicate AllEndFor(cfg: Settings, t: State) {
    && (forall k | 0 < k < |t.finished| :: EndsFor(cfg, t.finished[k - 1], t.finished[k]))
    && (t.finished != [] ==> if t.current.Some? then EndsFor(cfg, Last(t.finished), t.current.value)
                             else Concluded(Last(t.finished)))
  }

  lemma CloseEndsFor(cfg: Settings, t: State, atMS: int, forced: Option<Result>)
    requires AllEndFor(cfg, t) && KeepsResult(t, forced) && t.current.Some?
    ensures var c := CloseInterval(t, atMS, forced);
            forall k | 0 < k < |c.finished| :: EndsFor(cfg, c.finished[k - 1], c.finished[k])
  {
    hide CloseInterval, SameRows, SameTally;
    CloseFrame(t, atMS, forced);
    var c := CloseInterval(t, atMS, forced);
    assert c.finished == t.finished + [Last(c.finished)];
  }

  lemma OpenEndsFor(cfg: Settings, t: State, i: Input)
    requires AllEndFor(cfg, t)
    ensures AllEndFor(cfg, Opened(cfg, t, i))
  {
    hide CloseInterval, EnsureInterval, SameRows, SameTally, SynthKey;
    EnsureShape(cfg, t, KeyOf(i), StateOf(t, i), OpenAtMS(i));
    var forced := if Overdue(cfg, t, OpenAtMS(i)) then Some(ForcedResult(t.current.value)) else None;
    CloseFrame(t, OpenAtMS(i), forced);
    if t.current.Some? {
      CloseEndsFor(cfg, t, OpenAtMS(i), forced);
    }
  }

  lemma RecordEndsFor(cfg: Settings, t: State, r: State)
    requires AllEndFor(cfg, t) && t.current.Some? && StaysOpen(t, r)
    ensures AllEndFor(cfg, r)
  {
  }

  lemma StepEndsFor(cfg: Settings, t: State, i: Input)
    requires AllEndFor(cfg, t)
    ensures AllEndFor(cfg, Step(cfg, t, i))
  {
    hide CloseInterval, Opened, Record, VerdictOf, AllEndFor, KeepsResult, SameRows, SameTally;
    OpenEndsFor(cfg, t, i);
    var t1 := Opened(cfg, t, i);
    var t2, verdict := Record(cfg, t1, i), VerdictOf(cfg, t1, i);
    RecordEndsFor(cfg, t1, t2);
    VerdictsKeepResult(cfg, t1, t2, i);
    if verdict.Some? {
      VerdictConcludes(cfg, t1, i);
      CloseEndsFor(cfg, t2, AtMS(i), verdict);
      CloseFrame(t2, AtMS(i), verdict);
      Concludes(cfg, CloseInterval(t2, AtMS(i), verdict));
    }
  }

  lemma Concludes(cfg: Settings, c: State)
    requires c.current.None? && c.finished != [] && Concluded(Last(c.finished))
    requires forall k | 0 < k < |c.finished| :: EndsFor(cfg, c.finished[k - 1], c.finished[k])
    ensures AllEndFor(cfg, c)
  {
  }

  lemma VerdictConcludes(cfg: Settings, t: State, i: Input)
    requires t.current.Some? && VerdictOf(cfg, t, i).Some?
    ensures forall iv: Interval | iv.result == VerdictOf(cfg, t, i).value :: Concluded(iv)
  {
    hide StepRunEmits, StepRunFaultCounts;
  }

  lemma {:induction false} RunEndsFor(cfg: Settings, inputs: seq<Input>)
    ensures AllEndFor(cfg, Run(cfg, INITIAL, inputs))
  {
    hide Step, EndsFor;
    if inputs != [] {
      RunEndsFor(cfg, Front(inputs));
      StepEndsFor(cfg, Run(cfg, INITIAL, Front(inputs)), Last(inputs));
    }
  }

  /** On both paths an interval never ends without a reason: of two that follow each other, dropped ones included, the
      first reached a verdict or the duration cap, or the second is for another order or another state. */
  lemma IntervalsEndForAReason(cfg: Settings, inputs: seq<Input>, closeAt: int, k: nat)
    requires 0 < k < |WholeRun(cfg, inputs, closeAt).finished|
    ensures var f := WholeRun(cfg, inputs, closeAt).finished; EndsFor(cfg, f[k - 1], f[k])
  {
    hide Run, CloseInterval, EndsFor;
    var t := Run(cfg, INITIAL, inputs);
    RunEndsFor(cfg, inputs);
    FlushIsClose(cfg, inputs, closeAt);
    if t.current.Some? {
      CloseEndsFor(cfg, t, FlushAt(t, closeAt), FlushResult(t));
    } else {
      CloseFrame(t, FlushAt(t, closeAt), FlushResult(t));
    }
  }

  // ---------------------------------------------------------------------------
  // Recipe and glass count
  // ---------------------------------------------------------------------------

  predicate IsOrder(i: Input, orderKey: string, recipe: int, quantity: int) {
    i.Apply? && i.row.OrderRow? && i.row.order.orderKey == orderKey && i.row.order.recipe == recipe
    && i.row.order.quantity == quantity
  }

  /** What is noted of an order was told by an order row with the interval's key. */
  ghost predicate NotedFrom(iv: Interval, inputs: seq<Input>) {
    && (iv.recipeID.Some? <==> iv.glassCount.Some?)
    && (iv.recipeID.Some? ==>
          exists k :: 0 <= k < |inputs|
                      && IsOrder(inputs[k], iv.orderKey, iv.recipeID.value, iv.glassCount.value))
  }

  ghost predicate AllNoted(t: State, inputs: seq<Input>) {
    && (t.current.Some? ==> NotedFrom(t.current.value, inputs))
    && forall k | 0 <= k < |t.finished| :: NotedFrom(t.finished[k], inputs)
  }

  lemma NotedLater(iv: Interval, inputs: seq<Input>, i: Input)
    requires NotedFrom(iv, inputs)
    ensures NotedFrom(iv, inputs + [i])
  {
    assert forall k | 0 <= k < |inputs| :: (inputs + [i])[k] == inputs[k];
  }

  lemma SameNoted(a: Interval, b: Interval, inputs: seq<Input>)
    requires NotedFrom(a, inputs)
    requires b.orderKey == a.orderKey && b.recipeID == a.recipeID && b.glassCount == a.glassCount
    ensures NotedFrom(b, inputs)
  {
  }

  lemma CloseNoted(t: State, atMS: int, forced: Option<Result>, inputs: seq<Input>)
    requires AllNoted(t, inputs)
    ensures AllNoted(CloseInterval(t, atMS, forced), inputs)
  {
    hide CloseInterval, NotedFrom, SameRows;
    CloseFrame(t, atMS, forced);
    if t.current.Some? {
      var c := CloseInterval(t, atMS, forced);
      SameNoted(t.current.value, Last(c.finished), inputs);
      assert c.finished == t.finished + [Last(c.finished)];
    }
  }

  lemma OpenNoted(cfg: Settings, t: State, i: Input, inputs: seq<Input>)
    requires AllNoted(t, inputs)
    ensures AllNoted(Opened(cfg, t, i), inputs)
  {
    hide CloseInterval, EnsureInterval, SynthKey, SameRows, SameTally;
    EnsureShape(cfg, t, KeyOf(i), StateOf(t, i), OpenAtMS(i));
    var forced := if Overdue(cfg, t, OpenAtMS(i)) then Some(ForcedResult(t.current.value)) else None;
    CloseNoted(t, OpenAtMS(i), forced, inputs);
  }

  predicate SameNotes(a: Interval, b: Interval) {
    b.recipeID == a.recipeID && b.glassCount == a.glassCount
  }

  lemma FaultNotesNothing(cfg: Settings, t: State, f: Fault, atMS: int)
    requires t.current.Some?
    ensures SameNotes(t.current.value, RecordFault(cfg, t, f, atMS).current.value)
  {
    hide LedgerFaultKey, RecordLedgerFault;
  }

  lemma StepRunNotesNothing(cfg: Settings, t: State, sr: StepRun)
    requires t.current.Some?
    ensures SameNotes(t.current.value, RecordStepRun(cfg, t, sr).current.value)
  {
    hide StepRunFaultKey, StepRunEmits, StepRunFaultCounts, StepRunDwell;
  }

  lemma OthersNoteNothing(cfg: Settings, t: State, i: Input)
    requires t.current.Some? && !(i.Apply? && i.row.OrderRow?)
    ensures SameNotes(t.current.value, Record(cfg, t, i).current.value)
  {
    hide RecordEvent, RecordFault, RecordStepRun, ApplyDoorSignals;
    if i.Apply? && i.row.FaultRow? {
      FaultNotesNothing(cfg, t, i.row.fault, AtMS(i));
    } else if IsStepRun(i) {
      StepRunNotesNothing(cfg, t, i.row.stepRun);
    }
  }

  lemma RecordNoted(cfg: Settings, t: State, i: Input, inputs: seq<Input>)
    requires t.current.Some? && AllNoted(t, inputs)
    ensures AllNoted(Record(cfg, t, i), inputs + [i])
  {
    hide Record, NotedFrom;
    var iv, r := t.current.value, Record(cfg, t, i).current.value;
    forall k | 0 <= k < |t.finished| ensures NotedFrom(t.finished[k], inputs + [i]) {
      NotedLater(t.finished[k], inputs, i);
    }
    NotedLater(iv, inputs, i);
    if i.Apply? && i.row.OrderRow? {
      OrderNoted(cfg, t, i, inputs);
    } else {
      OthersNoteNothing(cfg, t, i);
      SameNoted(iv, r, inputs + [i]);
    }
  }

  lemma OrderNoted(cfg: Settings, t: State, i: Input, inputs: seq<Input>)
    requires t.current.Some? && i.Apply? && i.row.OrderRow? && NotedFrom(t.current.value, inputs + [i])
    ensures NotedFrom(Record(cfg, t, i).current.value, inputs + [i])
  {
    assert (inputs + [i])[|inputs|] == i;
  }

  lemma StepNoted(cfg: Settings, t: State, i: Input, inputs: seq<Input>)
    requires AllNoted(t, inputs)
    ensures AllNoted(Step(cfg, t, i), inputs + [i])
  {
    hide CloseInterval, Opened, Record, VerdictOf, AllNoted;
    OpenNoted(cfg, t, i, inputs);
    var t1 := Opened(cfg, t, i);
    RecordNoted(cfg, t1, i, inputs);
    CloseNoted(Record(cfg, t1, i), AtMS(i), VerdictOf(cfg, t1, i), inputs + [i]);
  }

  lemma {:induction false} RunNoted(cfg: Settings, inputs: seq<Input>)
    ensures AllNoted(Run(cfg, INITIAL, inputs), inputs)
  {
    hide Step, NotedFrom;
    if inputs != [] {
      RunNoted(cfg, Front(inputs));
      StepNoted(cfg, Run(cfg, INITIAL, Front(inputs)), Last(inputs), Front(inputs));
      assert Front(inputs) + [Last(inputs)] == inputs;
    }
  }

  /** On both paths recipe and glass count of an interval come together, from an order row with its key; and an order
      row leaves its recipe and quantity in the open interval of its order. */
  lemma OrdersAreNoted(cfg: Settings, inputs: seq<Input>, closeAt: int, iv: Interval, o: Order)
    requires iv in WholeRun(cfg, inputs, closeAt).finished
    ensures NotedFrom(iv, inputs)
    ensures var s := Step(cfg, Run(cfg, INITIAL, inputs), Apply(OrderRow(o)));
            o.orderKey != "" ==>
              && s.current.Some? && s.current.value.orderKey == o.orderKey
              && s.current.value.recipeID == Some(o.recipe) && s.current.value.glassCount == Some(o.quantity)
  {
    hide Run, CloseInterval, NotedFrom, EnsureInterval;
    var t := Run(cfg, INITIAL, inputs);
    RunNoted(cfg, inputs);
    FlushIsClose(cfg, inputs, closeAt);
    CloseNoted(t, FlushAt(t, closeAt), FlushResult(t), inputs);
    EnsureShape(cfg, t, o.orderKey, AUTO_CYCLE, Millis(o.ts));
  }
}
