/** The timestamps of an interval's child rows (cmd/projector/tracker.go, cmd/projector/writer.go): on the base path
    they are in order without any guard, within their interval and across the whole run. */
module ChildOrder {
  import opened Source
  import opened Intervals
  import opened TrackerSpec
  import opened Frames
  import opened Buffers
  import opened Timeline

  datatype Child = Spans | Dwells | Faults | Toggles | Doors | Configs | Events

  /** The instants the rows of one child table are stamped with. */
  function Stamps(c: Child, iv: Interval): seq<int> {
    match c
    case Spans => seq(|iv.stateDurations|, k requires 0 <= k < |iv.stateDurations| => iv.stateDurations[k].exitedAtMS)
    case Dwells => seq(|iv.stepDwells|, k requires 0 <= k < |iv.stepDwells| => iv.stepDwells[k].endedAtMS)
    case Faults => seq(|iv.faults|, k requires 0 <= k < |iv.faults| => iv.faults[k].raisedAtMS)
    case Toggles => seq(|iv.toggles|, k requires 0 <= k < |iv.toggles| => iv.toggles[k].eventAtMS)
    case Doors => seq(|iv.doorEvents|, k requires 0 <= k < |iv.doorEvents| => iv.doorEvents[k].closedAtMS)
    case Configs => seq(|iv.configs|, k requires 0 <= k < |iv.configs| => iv.configs[k].changedAtMS)
    case Events => seq(|iv.events|, k requires 0 <= k < |iv.events| => iv.events[k].eventAtMS)
  }

  /** b is a with some more stamps, all at one instant. */
  ghost predicate Appends(a: seq<int>, b: seq<int>, atMS: int) {
    a <= b && forall k | |a| <= k < |b| :: b[k] == atMS
  }

  ghost predicate GrowsAt(a: Interval, b: Interval, atMS: int) {
    forall c :: Appends(Stamps(c, a), Stamps(c, b), atMS)
  }

  lemma AppendsTwice(a: seq<int>, b: seq<int>, c: seq<int>, atMS: int)
    requires Appends(a, b, atMS) && Appends(b, c, atMS)
    ensures Appends(a, c, atMS)
  {
  }

  lemma GrowsTwice(a: Interval, b: Interval, c: Interval, atMS: int)
    requires GrowsAt(a, b, atMS) && GrowsAt(b, c, atMS)
    ensures GrowsAt(a, c, atMS)
  {
    hide Appends, Stamps;
    forall ch ensures Appends(Stamps(ch, a), Stamps(ch, c), atMS) {
      AppendsTwice(Stamps(ch, a), Stamps(ch, b), Stamps(ch, c), atMS);
    }
  }

  // ---------------------------------------------------------------------------
  // Every operation stamps with the instant it is applied at
  // ---------------------------------------------------------------------------

  lemma CloseDwellGrows(t: State, lane: Lane, atMS: int)
    requires t.current.Some?
    ensures GrowsAt(t.current.value, CloseDwell(t, lane, atMS).current.value, atMS)
  {
    forall c ensures Appends(Stamps(c, t.current.value), Stamps(c, CloseDwell(t, lane, atMS).current.value), atMS) {
      match c { case Dwells => case _ => }
    }
  }

  lemma CloseDwellsGrow(t: State, atMS: int)
    requires t.current.Some?
    ensures GrowsAt(t.current.value, CloseOpenDwells(t, atMS).current.value, atMS)
  {
    hide CloseDwell, GrowsAt;
    var t1 := CloseDwell(t, Crusher, atMS);
    var t2 := CloseDwell(t1, Main, atMS);
    var t3 := CloseDwell(t2, Tilter, atMS);
    CloseDwellGrows(t, Crusher, atMS);
    CloseDwellGrows(t1, Main, atMS);
    CloseDwellGrows(t2, Tilter, atMS);
    GrowsTwice(t.current.value, t1.current.value, t2.current.value, atMS);
    GrowsTwice(t.current.value, t2.current.value, t3.current.value, atMS);
  }

  lemma CloseSpanGrows(t: State, atMS: int, reason: string)
    requires t.current.Some?
    ensures GrowsAt(t.current.value, CloseStateSpan(t, atMS, reason).current.value, atMS)
  {
    var r := CloseStateSpan(t, atMS, reason).current.value;
    forall c ensures Appends(Stamps(c, t.current.value), Stamps(c, r), atMS) {
      match c { case Spans => case _ => }
    }
  }

  lemma CloseGrows(t: State, atMS: int, forced: Option<Result>)
    requires t.current.Some?
    ensures var c := CloseInterval(t, atMS, forced);
            c.finished != [] && GrowsAt(t.current.value, Last(c.finished), atMS)
  {
    hide CloseOpenDwells, CloseStateSpan, GrowsAt, Sealed;
    var t1 := CloseOpenDwells(t, atMS);
    var t2 := CloseStateSpan(t1, atMS, "interval_end");
    CloseDwellsGrow(t, atMS);
    CloseSpanGrows(t1, atMS, "interval_end");
    GrowsTwice(t.current.value, t1.current.value, t2.current.value, atMS);
    SealGrows(t2.current.value, atMS, forced);
    GrowsTwice(t.current.value, t2.current.value, Sealed(t2.current.value, atMS, forced), atMS);
  }

  lemma SealGrows(iv: Interval, atMS: int, forced: Option<Result>)
    ensures GrowsAt(iv, Sealed(iv, atMS, forced), atMS)
  {
  }

  lemma TrackDwellGrows(t: State, e: FsmEvent, atMS: int)
    requires t.current.Some?
    ensures GrowsAt(t.current.value, TrackDwell(t, e, atMS).current.value, atMS)
  {
    hide CloseDwell, GrowsAt;
    var lane := LaneForState(e.currentState);
    var t1 := if lane in t.openDwells then t.(openDwells := t.openDwells[lane := CountEvent(t.openDwells[lane], e)])
              else t;
    CloseDwellGrows(t1, lane, atMS);
    GrowsNot(t.current.value, atMS);
  }

  lemma GrowsNot(iv: Interval, atMS: int)
    ensures GrowsAt(iv, iv, atMS)
  {
  }

  lemma EventGrows(cfg: Settings, t: State, e: FsmEvent, atMS: int)
    requires t.current.Some?
    ensures GrowsAt(t.current.value, RecordEvent(cfg, t, e, atMS).current.value, atMS)
  {
    hide TrackStateSpan, TrackDwell, GrowsAt;
    var a := t.current.value;
    var t1 := t.(current := Some(CountIn(a, e)));
    CountingGrows(a, e, atMS);
    var t2 := TrackStateSpan(t1, e, atMS);
    TrackSpanGrows(t1, e, atMS);
    GrowsTwice(a, t1.current.value, t2.current.value, atMS);
    var t3 := if cfg.useStepRuns then t2 else TrackDwell(t2, e, atMS);
    TrackDwellGrows(t2, e, atMS);
    GrowsNot(t2.current.value, atMS);
    GrowsTwice(a, t2.current.value, t3.current.value, atMS);
    AddEventGrows(t3, e, atMS);
    GrowsTwice(a, t3.current.value, AddEvent(t3, e, atMS).current.value, atMS);
  }

  lemma CountingGrows(iv: Interval, e: FsmEvent, atMS: int)
    ensures GrowsAt(iv, CountIn(iv, e), atMS)
  {
  }

  lemma TrackSpanGrows(t: State, e: FsmEvent, atMS: int)
    requires t.current.Some?
    ensures GrowsAt(t.current.value, TrackStateSpan(t, e, atMS).current.value, atMS)
  {
    hide CloseStateSpan, GrowsAt;
    CloseSpanGrows(t, atMS, e.kind);
    GrowsNot(t.current.value, atMS);
  }

  lemma AddEventGrows(t: State, e: FsmEvent, atMS: int)
    requires t.current.Some?
    ensures GrowsAt(t.current.value, AddEvent(t, e, atMS).current.value, atMS)
  {
    forall c ensures Appends(Stamps(c, t.current.value), Stamps(c, AddEvent(t, e, atMS).current.value), atMS) {
      match c { case Events => case _ => }
    }
  }

  lemma FaultGrows(cfg: Settings, t: State, f: Fault, atMS: int)
    requires t.current.Some?
    ensures GrowsAt(t.current.value, RecordFault(cfg, t, f, atMS).current.value, atMS)
  {
    hide LedgerFaultKey, RecordLedgerFault;
    forall c ensures Appends(Stamps(c, t.current.value), Stamps(c, RecordFault(cfg, t, f, atMS).current.value), atMS) {
      match c { case Faults => case _ => }
    }
  }

  lemma StepRunGrows(cfg: Settings, t: State, sr: StepRun)
    requires t.current.Some?
    ensures GrowsAt(t.current.value, RecordStepRun(cfg, t, sr).current.value, Millis(sr.ended))
  {
    hide StepRunFaultKey, LedgerCovers;
    var r := RecordStepRun(cfg, t, sr).current.value;
    forall c ensures Appends(Stamps(c, t.current.value), Stamps(c, r), Millis(sr.ended)) {
      match c { case Dwells => case Faults => case _ => }
    }
  }

  lemma ToggleGrows(t: State, s: Toggle, atMS: int)
    requires t.current.Some?
    ensures GrowsAt(t.current.value, AddToggle(ApplyDoorSignals(t, s, atMS), s, atMS).current.value, atMS)
  {
    var r := AddToggle(ApplyDoorSignals(t, s, atMS), s, atMS).current.value;
    forall c ensures Appends(Stamps(c, t.current.value), Stamps(c, r), atMS) {
      match c { case Toggles => case Doors => case _ => }
    }
  }

  lemma RecordGrows(cfg: Settings, t: State, i: Input)
    requires t.current.Some?
    ensures GrowsAt(t.current.value, Record(cfg, t, i).current.value, AtMS(i))
  {
    hide RecordEvent, RecordFault, RecordStepRun, ApplyDoorSignals, AddToggle;
    match i {
      case Config(_, _, _, _) =>
        var r := Record(cfg, t, i).current.value;
        forall c ensures Appends(Stamps(c, t.current.value), Stamps(c, r), AtMS(i)) {
          match c { case Configs => case _ => }
        }
      case Apply(row) =>
        hide GrowsAt;
        match row {
          case OrderRow(o) => OrderGrows(t, o, AtMS(i));
          case EventRow(e) => EventGrows(cfg, t, e, AtMS(i));
          case StepRunRow(sr) => StepRunGrows(cfg, t, sr);
          case FaultRow(f) => FaultGrows(cfg, t, f, AtMS(i));
          case ToggleRow(s) => ToggleGrows(t, s, AtMS(i));
        }
    }
  }

  lemma OrderGrows(t: State, o: Order, atMS: int)
    requires t.current.Some?
    ensures GrowsAt(t.current.value, RecordOrder(t, o).current.value, atMS)
  {
  }

  // ---------------------------------------------------------------------------
  // Order and bounds
  // ---------------------------------------------------------------------------

  ghost predicate InOrder(s: seq<int>, lo: int, hi: int) {
    (forall k | 0 <= k < |s| :: lo <= s[k] <= hi) && forall j, k | 0 <= j < k < |s| :: s[j] <= s[k]
  }

  /** The child rows of an interval are in order and lie between two instants. */
  ghost predicate Stamped(iv: Interval, lo: int, hi: int) {
    forall c :: InOrder(Stamps(c, iv), lo, hi)
  }

  lemma StampedGrows(a: Interval, b: Interval, lo: int, now: int, atMS: int)
    requires Stamped(a, lo, now) && GrowsAt(a, b, atMS) && lo <= atMS && now <= atMS
    ensures Stamped(b, lo, atMS)
  {
    hide Stamps;
    forall c ensures InOrder(Stamps(c, b), lo, atMS) {
      assert Appends(Stamps(c, a), Stamps(c, b), atMS) && InOrder(Stamps(c, a), lo, now);
    }
  }

  /** Source rows arrive before the duration cap is reached. */
  ghost predicate WithinCap(cfg: Settings, iv: Interval) {
    cfg.maxIntervalMS > 0 ==>
      forall c, k | (c == Events || c == Toggles || c == Faults || c == Configs) && 0 <= k < |Stamps(c, iv)| ::
        Stamps(c, iv)[k] < iv.startedMS + cfg.maxIntervalMS
  }

  lemma CapGrows(cfg: Settings, a: Interval, b: Interval, atMS: int)
    requires WithinCap(cfg, a) && GrowsAt(a, b, atMS) && a.startedMS == b.startedMS
    requires cfg.maxIntervalMS > 0 ==> atMS - a.startedMS < cfg.maxIntervalMS
    ensures WithinCap(cfg, b)
  {
    hide Stamps;
    forall c, k | cfg.maxIntervalMS > 0 && (c == Events || c == Toggles || c == Faults || c == Configs)
                  && 0 <= k < |Stamps(c, b)|
      ensures Stamps(c, b)[k] < b.startedMS + cfg.maxIntervalMS
    {
      assert Appends(Stamps(c, a), Stamps(c, b), atMS);
    }
  }

  lemma CapKept(cfg: Settings, a: Interval, b: Interval)
    requires WithinCap(cfg, a) && SameRows(a, b) && a.startedMS == b.startedMS
    ensures WithinCap(cfg, b)
  {
    assert Stamps(Events, a) == Stamps(Events, b) && Stamps(Toggles, a) == Stamps(Toggles, b);
    assert Stamps(Faults, a) == Stamps(Faults, b) && Stamps(Configs, a) == Stamps(Configs, b);
  }

  ghost predicate ChildrenInOrder(cfg: Settings, t: State, now: int) {
    && (t.current.Some? ==> t.current.value.startedMS <= now && Stamped(t.current.value, t.current.value.startedMS, now)
                            && WithinCap(cfg, t.current.value))
    && forall k | 0 <= k < |t.finished| ::
         Stamped(t.finished[k], t.finished[k].startedMS, t.finished[k].endedMS) && WithinCap(cfg, t.finished[k])
  }

  lemma CloseKeepsOrder(cfg: Settings, t: State, atMS: int, forced: Option<Result>, now: int)
    requires ChildrenInOrder(cfg, t, now) && now <= atMS
    ensures ChildrenInOrder(cfg, CloseInterval(t, atMS, forced), atMS)
  {
    hide CloseInterval, Stamped, WithinCap, GrowsAt, SameRows, SameTally;
    CloseFrame(t, atMS, forced);
    if t.current.Some? {
      var c := CloseInterval(t, atMS, forced);
      CloseGrows(t, atMS, forced);
      StampedGrows(t.current.value, Last(c.finished), t.current.value.startedMS, now, atMS);
      CapKept(cfg, t.current.value, Last(c.finished));
      assert c.finished == t.finished + [Last(c.finished)];
    }
  }

  lemma StampedLater(iv: Interval, lo: int, hi: int, later: int)
    requires Stamped(iv, lo, hi) && hi <= later
    ensures Stamped(iv, lo, later)
  {
    hide Stamps;
    forall c ensures InOrder(Stamps(c, iv), lo, later) {
      assert InOrder(Stamps(c, iv), lo, hi);
    }
  }

  lemma FreshStamped(cfg: Settings, k: string, p: bool, at: int, r: Result)
    ensures Stamped(NewInterval(k, p, at, r), at, at) && WithinCap(cfg, NewInterval(k, p, at, r))
  {
  }

  /** After making sure of an interval the input is not beyond its cap. */
  lemma OpenKeepsOrder(cfg: Settings, t: State, i: Input, now: int)
    requires ChildrenInOrder(cfg, t, now) && now <= AtMS(i) && !IsStepRun(i)
    ensures ChildrenInOrder(cfg, Opened(cfg, t, i), AtMS(i))
    ensures cfg.maxIntervalMS > 0 ==> AtMS(i) - Opened(cfg, t, i).current.value.startedMS < cfg.maxIntervalMS
  {
    hide CloseInterval, EnsureInterval, Stamped, WithinCap, SynthKey;
    EnsureShape(cfg, t, KeyOf(i), StateOf(t, i), AtMS(i));
    var forced := if Overdue(cfg, t, AtMS(i)) then Some(ForcedResult(t.current.value)) else None;
    var r := Opened(cfg, t, i).current.value;
    if Opened(cfg, t, i) == t {
      StampedLater(r, r.startedMS, now, AtMS(i));
    } else {
      CloseKeepsOrder(cfg, t, AtMS(i), forced, now);
      FreshStamped(cfg, r.orderKey, r.isProduction, AtMS(i), r.result);
    }
  }

  lemma StepKeepsOrder(cfg: Settings, t: State, i: Input, now: int)
    requires ChildrenInOrder(cfg, t, now) && now <= AtMS(i) && !IsStepRun(i)
    ensures ChildrenInOrder(cfg, Step(cfg, t, i), AtMS(i))
  {
    hide CloseInterval, Opened, Record, VerdictOf, Stamped, WithinCap, GrowsAt;
    OpenKeepsOrder(cfg, t, i, now);
    var t1 := Opened(cfg, t, i);
    var t2 := Record(cfg, t1, i);
    RecordGrows(cfg, t1, i);
    StampedGrows(t1.current.value, t2.current.value, t1.current.value.startedMS, AtMS(i), AtMS(i));
    CapGrows(cfg, t1.current.value, t2.current.value, AtMS(i));
    CloseKeepsOrder(cfg, t2, AtMS(i), VerdictOf(cfg, t1, i), AtMS(i));
  }

  lemma {:induction false} RunKeepsOrder(cfg: Settings, start: int, inputs: seq<Input>)
    requires BasePath(start, inputs)
    ensures ChildrenInOrder(cfg, Run(cfg, INITIAL, inputs), Now(start, inputs))
  {
    hide Step, Stamped, WithinCap;
    if inputs != [] {
      TimeOrderedFront(start, inputs);
      RunKeepsOrder(cfg, start, Front(inputs));
      StepKeepsOrder(cfg, Run(cfg, INITIAL, Front(inputs)), Last(inputs), Now(start, Front(inputs)));
    }
  }

  // ---------------------------------------------------------------------------
  // Main results
  // ---------------------------------------------------------------------------

  function StampsOf(c: Child): Interval -> seq<int> {
    (iv: Interval) => Stamps(c, iv)
  }

  ghost predicate SortedUpTo(s: seq<int>, hi: int) {
    (forall k | 0 <= k < |s| :: s[k] <= hi) && forall j, k | 0 <= j < k < |s| :: s[j] <= s[k]
  }

  lemma JoinStamps(s: seq<int>, t: seq<int>, lo: int, hi: int, next: int)
    requires SortedUpTo(s, lo) && InOrder(t, lo, hi) && lo <= hi <= next
    ensures SortedUpTo(s + t, next)
  {
  }

  lemma {:induction false} EmittedStampsInOrder(ivs: seq<Interval>, now: int, c: Child, next: int)
    requires Chain(ivs, now) && Continues(ivs, next)
    requires forall k | 0 <= k < |ivs| :: InOrder(Stamps(c, ivs[k]), ivs[k].startedMS, ivs[k].endedMS)
    ensures SortedUpTo(Flat(StampsOf(c), Emitted(ivs)), next)
  {
    hide Stamps, InOrder, SortedUpTo;
    if ivs == [] {
      NothingSorted(next);
    } else {
      var front, iv := Front(ivs), Last(ivs);
      assert ivs == front + [iv];
      EmittedStampsInOrder(front, now, c, iv.startedMS);
      if iv.startedMS < iv.endedMS {
        assert Front(Emitted(ivs)) == Emitted(front);
        JoinStamps(Flat(StampsOf(c), Emitted(front)), Stamps(c, iv), iv.startedMS, iv.endedMS, next);
      } else {
        assert Emitted(ivs) == Emitted(front);
        SortedLater(Flat(StampsOf(c), Emitted(front)), iv.startedMS, next);
      }
    }
  }

  lemma NothingSorted(hi: int)
    ensures SortedUpTo([], hi)
  {
  }

  lemma SortedLater(s: seq<int>, hi: int, later: int)
    requires SortedUpTo(s, hi) && hi <= later
    ensures SortedUpTo(s, later)
  {
  }

  /** A closed interval's child rows are in order between its start and its end, and its source rows were
      applied less than the duration cap after its start. */
  lemma RowsWithinInterval(cfg: Settings, start: int, inputs: seq<Input>, closeAt: int, iv: Interval)
    requires BasePath(start, inputs) && Now(start, inputs) <= closeAt
    requires iv in WholeRun(cfg, inputs, closeAt).finished
    ensures Stamped(iv, iv.startedMS, iv.endedMS) && WithinCap(cfg, iv)
  {
    hide Run, CloseInterval, Stamped, WithinCap;
    var t := Run(cfg, INITIAL, inputs);
    RunKeepsOrder(cfg, start, inputs);
    FlushIsClose(cfg, inputs, closeAt);
    CloseKeepsOrder(cfg, t, FlushAt(t, closeAt), FlushResult(t), Now(start, inputs));
  }

  /** The rows of every child table, written interval by interval, have nondecreasing timestamps over the whole
      run, although only the cycles table is guarded. */
  lemma ChildrenNeedNoGuard(cfg: Settings, start: int, inputs: seq<Input>, closeAt: int, c: Child)
    requires BasePath(start, inputs) && Now(start, inputs) <= closeAt
    ensures var s := Flat(StampsOf(c), WholeRun(cfg, inputs, closeAt).closed);
            forall j, k | 0 <= j < k < |s| :: s[j] <= s[k]
  {
    hide Run, FlushOpen, Chain, Stamps;
    var f := WholeRun(cfg, inputs, closeAt);
    RunTimeline(cfg, start, inputs, closeAt);
    forall k | 0 <= k < |f.finished|
      ensures InOrder(Stamps(c, f.finished[k]), f.finished[k].startedMS, f.finished[k].endedMS)
    {
      RowsWithinInterval(cfg, start, inputs, closeAt, f.finished[k]);
    }
    ChainEnds(f.finished, closeAt + 1);
    var next := if f.finished == [] then 0 else Last(f.finished).endedMS;
    EmittedStampsInOrder(f.finished, closeAt + 1, c, next);
  }

  lemma ChainEnds(ivs: seq<Interval>, now: int)
    requires Chain(ivs, now)
    ensures ivs != [] ==> Continues(ivs, Last(ivs).endedMS)
  {
  }

  /** A source row filed in a dropped interval carries the very millisecond that interval opened at. */
  lemma LostRowsAreInstant(cfg: Settings, start: int, inputs: seq<Input>, closeAt: int, iv: Interval, c: Child, k: nat)
    requires BasePath(start, inputs) && Now(start, inputs) <= closeAt
    requires iv in WholeRun(cfg, inputs, closeAt).finished && iv.endedMS <= iv.startedMS && k < |Stamps(c, iv)|
    ensures Stamps(c, iv)[k] == iv.startedMS
  {
    hide Run, FlushOpen, Stamps;
    RowsWithinInterval(cfg, start, inputs, closeAt, iv);
    assert InOrder(Stamps(c, iv), iv.startedMS, iv.endedMS);
  }
}
