/** What a state span stands for (cmd/projector/tracker.go): the machine's state between the events that tell it. */
module StateHistory {
  import opened Sorting
  import opened Source
  import opened Intervals
  import opened TrackerSpec
  import opened Frames
  import opened Buffers
  import opened Spans

  /** Events of the two parallel lanes and events without a state say nothing about the machine's state. */
  predicate TellsState(e: OutEvent) {
    e.row.currentState != "" && e.row.currentState != "Tilter" && e.row.currentState != "Crusher"
  }

  /** The events of an interval that tell the state. */
  function Told(iv: Interval): seq<OutEvent> {
    Filter(TellsState, iv.events)
  }

  /** One span in this state contains [a, b). */
  ghost predicate Held(spans: seq<OutSpan>, state: string, a: int, b: int) {
    exists k :: 0 <= k < |spans| && spans[k].state == state && spans[k].enteredAtMS <= a && b <= spans[k].exitedAtMS
  }

  /** The instant up to which the k-th event tells the state. */
  function Until(told: seq<OutEvent>, k: nat, end: int): int
    requires k < |told|
  {
    if k + 1 < |told| then told[k + 1].eventAtMS else end
  }

  /** From each event to the next, the last one to the end, the machine is held in the event's state by one span. */
  ghost predicate AllHeld(spans: seq<OutSpan>, told: seq<OutEvent>, end: int) {
    forall k | 0 <= k < |told| && told[k].eventAtMS < Until(told, k, end) ::
      Held(spans, told[k].row.currentState, told[k].eventAtMS, Until(told, k, end))
  }

  ghost predicate EventsInTime(told: seq<OutEvent>, now: int) {
    && (forall k | 0 <= k < |told| :: told[k].eventAtMS <= now)
    && forall j, k | 0 <= j < k < |told| :: told[j].eventAtMS <= told[k].eventAtMS
  }

  // ---------------------------------------------------------------------------
  // From one telling event to the next
  // ---------------------------------------------------------------------------

  /** The open span is in the state told last, and holds what no closed span holds. */
  ghost predicate ShownOpen(spans: seq<OutSpan>, told: seq<OutEvent>, o: Option<OpenSpan>, now: int) {
    && EventsInTime(told, now)
    && (told != [] ==> o.Some? && o.value.state == Last(told).row.currentState
                       && o.value.enteredMS <= Last(told).eventAtMS)
    && forall k | 0 <= k < |told| - 1 && told[k].eventAtMS < told[k + 1].eventAtMS ::
         Held(spans, told[k].row.currentState, told[k].eventAtMS, told[k + 1].eventAtMS)
         || (o.value.state == told[k].row.currentState && o.value.enteredMS <= told[k].eventAtMS)
  }

  ghost predicate ShownDone(iv: Interval) {
    EventsInTime(Told(iv), iv.endedMS) && AllHeld(iv.stateDurations, Told(iv), iv.endedMS)
  }

  ghost predicate Shown(t: State, now: int) {
    && (t.openState.Some? ==> t.openState.value.enteredMS <= now)
    && (t.current.Some? ==> ShownOpen(t.current.value.stateDurations, Told(t.current.value), t.openState, now))
    && forall k | 0 <= k < |t.finished| :: ShownDone(t.finished[k])
  }

  lemma HeldMore(spans: seq<OutSpan>, s: OutSpan, state: string, a: int, b: int)
    ensures Held(spans, state, a, b) ==> Held(spans + [s], state, a, b)
    ensures s.state == state && s.enteredAtMS <= a && b <= s.exitedAtMS ==> Held(spans + [s], state, a, b)
  {
    var more := spans + [s];
    assert more[|spans|] == s && forall k | 0 <= k < |spans| :: more[k] == spans[k];
  }

  /** Closing the span settles everything told so far. */
  lemma ClosingHolds(t: State, atMS: int, reason: string, now: int)
    requires t.current.Some? && now <= atMS
    requires ShownOpen(t.current.value.stateDurations, Told(t.current.value), t.openState, now)
    ensures AllHeld(CloseStateSpan(t, atMS, reason).current.value.stateDurations, Told(t.current.value), atMS)
  {
    hide Held, Told;
    var iv, r := t.current.value, CloseStateSpan(t, atMS, reason).current.value;
    var told := Told(iv);
    forall k | 0 <= k < |told| && told[k].eventAtMS < Until(told, k, atMS)
      ensures Held(r.stateDurations, told[k].row.currentState, told[k].eventAtMS, Until(told, k, atMS))
    {
      if t.openState.value.enteredMS < atMS {
        var s := Last(r.stateDurations);
        assert r.stateDurations == iv.stateDurations + [s];
        HeldMore(iv.stateDurations, s, told[k].row.currentState, told[k].eventAtMS, Until(told, k, atMS));
      }
    }
  }

  lemma ToldMore(iv: Interval, r: Interval, e: OutEvent)
    requires r.events == iv.events + [e]
    ensures Told(r) == Told(iv) + if TellsState(e) then [e] else []
  {
    FilterSnoc(TellsState, iv.events, e);
  }

  lemma ShownLater(spans: seq<OutSpan>, told: seq<OutEvent>, o: Option<OpenSpan>, now: int, later: int)
    requires ShownOpen(spans, told, o, now) && now <= later
    ensures ShownOpen(spans, told, o, later)
  {
    hide Held;
  }

  /** One more event that tells the state, in the state of the open span. */
  lemma SameState(spans: seq<OutSpan>, told: seq<OutEvent>, o: OpenSpan, e: OutEvent, now: int)
    requires ShownOpen(spans, told, Some(o), now) && now <= e.eventAtMS
    requires o.state == e.row.currentState && o.enteredMS <= e.eventAtMS
    ensures ShownOpen(spans, told + [e], Some(o), e.eventAtMS)
  {
    hide Held;
    var more := told + [e];
    assert more[|told|] == e && forall k | 0 <= k < |told| :: more[k] == told[k];
  }

  /** One more event that tells the state, in a span of its own. */
  lemma NewState(spans: seq<OutSpan>, told: seq<OutEvent>, o: OpenSpan, e: OutEvent, now: int)
    requires EventsInTime(told, now) && AllHeld(spans, told, e.eventAtMS) && now <= e.eventAtMS
    requires o.state == e.row.currentState && o.enteredMS == e.eventAtMS
    ensures ShownOpen(spans, told + [e], Some(o), e.eventAtMS)
  {
    hide Held;
    var more := told + [e];
    assert more[|told|] == e && forall k | 0 <= k < |told| :: more[k] == told[k];
    forall k | 0 <= k < |more| - 1 && more[k].eventAtMS < more[k + 1].eventAtMS
      ensures Held(spans, more[k].row.currentState, more[k].eventAtMS, more[k + 1].eventAtMS)
    {
      assert Until(told, k, e.eventAtMS) == more[k + 1].eventAtMS;
    }
  }

  lemma EventShown(cfg: Settings, t: State, e: FsmEvent, atMS: int, now: int)
    requires t.current.Some? && Shown(t, now) && now <= atMS
    ensures Shown(RecordEvent(cfg, t, e, atMS), atMS)
  {
    hide ShownOpen, ShownDone, Told, CloseStateSpan;
    var t1 := t.(current := Some(CountIn(t.current.value, e)));
    var t2, r := TrackStateSpan(t1, e, atMS), RecordEvent(cfg, t, e, atMS);
    var out := OutEvent(atMS, t.current.value.orderKey, e);
    EventFiled(cfg, t, e, atMS);
    ToldMore(t.current.value, r.current.value, out);
    ShownLater(t.current.value.stateDurations, Told(t.current.value), t.openState, now, atMS);
    if TellsState(out) {
      ToldSame(t.current.value, t1.current.value);
      var told := Told(t.current.value);
      InTimeOf(t.current.value.stateDurations, told, t.openState, now);
      if t.openState.Some? && t.openState.value.state == e.currentState {
        SameState(t.current.value.stateDurations, told, t.openState.value, out, now);
      } else if t.openState.None? {
        NothingTold(t.current.value.stateDurations, told, now);
        NewState(t.current.value.stateDurations, told, r.openState.value, out, now);
      } else {
        ClosingHolds(t1, atMS, e.kind, now);
        NewState(r.current.value.stateDurations, told, r.openState.value, out, now);
      }
    } else {
      assert Told(t.current.value) + [] == Told(t.current.value);
    }
  }

  lemma InTimeOf(spans: seq<OutSpan>, told: seq<OutEvent>, o: Option<OpenSpan>, now: int)
    requires ShownOpen(spans, told, o, now)
    ensures EventsInTime(told, now)
  {
  }

  lemma NothingTold(spans: seq<OutSpan>, told: seq<OutEvent>, now: int)
    requires ShownOpen(spans, told, None, now)
    ensures forall end :: AllHeld(spans, told, end)
  {
    hide Held;
  }

  lemma ToldSame(a: Interval, b: Interval)
    requires a.events == b.events
    ensures Told(a) == Told(b)
  {
  }

  lemma EventFiled(cfg: Settings, t: State, e: FsmEvent, atMS: int)
    requires t.current.Some?
    ensures var t1 := t.(current := Some(CountIn(t.current.value, e)));
            var t2, r := TrackStateSpan(t1, e, atMS), RecordEvent(cfg, t, e, atMS);
            && r.openState == t2.openState && r.current.value.stateDurations == t2.current.value.stateDurations
            && r.current.value.events == t.current.value.events + [OutEvent(atMS, t.current.value.orderKey, e)]
            && r.finished == t.finished
  {
    hide TrackStateSpan, TrackDwell;
  }

  /** Nothing that says anything about the state differs. */
  predicate SaysTheSame(t: State, r: State)
    requires t.current.Some? && r.current.Some?
  {
    var a, b := t.current.value, r.current.value;
    b.events == a.events && b.stateDurations == a.stateDurations && r.openState == t.openState
    && r.finished == t.finished
  }

  lemma FaultSays(cfg: Settings, t: State, f: Fault, atMS: int)
    requires t.current.Some?
    ensures SaysTheSame(t, RecordFault(cfg, t, f, atMS))
  {
    hide LedgerFaultKey, RecordLedgerFault;
  }

  lemma StepRunSays(cfg: Settings, t: State, sr: StepRun)
    requires t.current.Some?
    ensures SaysTheSame(t, RecordStepRun(cfg, t, sr))
  {
    hide StepRunFaultKey, StepRunEmits, StepRunFaultCounts, StepRunDwell;
  }

  /** Only events say anything about the state. */
  lemma OthersSayNothing(cfg: Settings, t: State, i: Input)
    requires t.current.Some? && !(i.Apply? && i.row.EventRow?)
    ensures SaysTheSame(t, Record(cfg, t, i))
  {
    hide RecordFault, RecordStepRun, ApplyDoorSignals;
    if i.Apply? && i.row.FaultRow? {
      FaultSays(cfg, t, i.row.fault, AtMS(i));
    } else if IsStepRun(i) {
      StepRunSays(cfg, t, i.row.stepRun);
    }
  }

  lemma RecordShown(cfg: Settings, t: State, i: Input, now: int)
    requires t.current.Some? && Shown(t, now) && now <= AtMS(i)
    ensures Shown(Record(cfg, t, i), AtMS(i))
  {
    hide RecordEvent, Record, ShownOpen, ShownDone, Told;
    if i.Apply? && i.row.EventRow? {
      EventShown(cfg, t, i.row.event, AtMS(i), now);
      RecordsEvent(cfg, t, i, i.row.event);
    } else {
      OthersSayNothing(cfg, t, i);
      ToldSame(t.current.value, Record(cfg, t, i).current.value);
      ShownLater(t.current.value.stateDurations, Told(t.current.value), t.openState, now, AtMS(i));
    }
  }

  lemma RecordsEvent(cfg: Settings, t: State, i: Input, e: FsmEvent)
    requires t.current.Some? && i == Apply(EventRow(e))
    ensures Record(cfg, t, i) == RecordEvent(cfg, t, e, AtMS(i))
  {
    hide RecordEvent;
  }

  /** A closing, seen from the state spans. */
  lemma CloseSpans(t: State, atMS: int, forced: Option<Result>)
    requires t.current.Some?
    ensures var c, s := CloseInterval(t, atMS, forced), CloseStateSpan(t, atMS, "interval_end");
            && c.finished == t.finished + [Last(c.finished)]
            && Last(c.finished).stateDurations == s.current.value.stateDurations
            && Last(c.finished).events == t.current.value.events && Last(c.finished).endedMS == atMS
            && c.openState == s.openState && c.current.None?
  {
    hide CloseOpenDwells;
  }

  lemma CloseShown(t: State, atMS: int, forced: Option<Result>, now: int)
    requires Shown(t, now) && now <= atMS
    ensures Shown(CloseInterval(t, atMS, forced), atMS)
  {
    hide CloseInterval, ShownOpen, Told, AllHeld, EventsInTime;
    if t.current.Some? {
      var iv := t.current.value;
      CloseSpans(t, atMS, forced);
      ClosingHolds(t, atMS, "interval_end", now);
      var c := CloseInterval(t, atMS, forced);
      ToldSame(iv, Last(c.finished));
      ShownLater(iv.stateDurations, Told(iv), t.openState, now, atMS);
      InTimeOf(iv.stateDurations, Told(iv), t.openState, atMS);
      assert ShownDone(Last(c.finished));
    } else {
      assert CloseInterval(t, atMS, forced) == t by { NothingCloses(t, atMS, forced); }
    }
  }

  lemma NothingCloses(t: State, atMS: int, forced: Option<Result>)
    requires t.current.None?
    ensures CloseInterval(t, atMS, forced) == t
  {
  }

  lemma OpenShown(cfg: Settings, t: State, i: Input, now: int)
    requires Shown(t, now) && now <= AtMS(i) && !IsStepRun(i)
    ensures Shown(Opened(cfg, t, i), AtMS(i))
  {
    hide CloseInterval, EnsureInterval, ShownOpen, ShownDone, SynthKey, Told, SameRows, SameTally;
    var at := AtMS(i);
    EnsureShape(cfg, t, KeyOf(i), StateOf(t, i), at);
    var forced := if Overdue(cfg, t, at) then Some(ForcedResult(t.current.value)) else None;
    CloseShown(t, at, forced, now);
    CloseFrame(t, at, forced);
    if Opened(cfg, t, i) == t {
      ShownLater(t.current.value.stateDurations, Told(t.current.value), t.openState, now, at);
    } else {
      var c := CloseInterval(t, at, forced);
      FreshShown(Fresh(c, KeyOf(i), StateOf(t, i), at).current.value, c.openState, at);
    }
  }

  lemma FreshShown(iv: Interval, o: Option<OpenSpan>, now: int)
    requires iv.events == []
    ensures ShownOpen(iv.stateDurations, Told(iv), o, now)
  {
  }

  lemma StepShown(cfg: Settings, t: State, i: Input, now: int)
    requires Shown(t, now) && now <= AtMS(i) && !IsStepRun(i)
    ensures Shown(Step(cfg, t, i), AtMS(i))
  {
    hide CloseInterval, Opened, Record, VerdictOf, Shown;
    OpenShown(cfg, t, i, now);
    var t1 := Opened(cfg, t, i);
    RecordShown(cfg, t1, i, AtMS(i));
    CloseShown(Record(cfg, t1, i), AtMS(i), VerdictOf(cfg, t1, i), AtMS(i));
  }

  lemma {:induction false} RunShown(cfg: Settings, start: int, inputs: seq<Input>)
    requires BasePath(start, inputs)
    ensures Shown(Run(cfg, INITIAL, inputs), Now(start, inputs))
  {
    hide Step, ShownOpen, ShownDone;
    if inputs != [] {
      TimeOrderedFront(start, inputs);
      RunShown(cfg, start, Front(inputs));
      StepShown(cfg, Run(cfg, INITIAL, Front(inputs)), Last(inputs), Now(start, Front(inputs)));
    }
  }

  // ---------------------------------------------------------------------------
  // No event inside a span tells another state
  // ---------------------------------------------------------------------------

  ghost predicate Agree(s: OutSpan, e: OutEvent) {
    s.enteredAtMS < e.eventAtMS < s.exitedAtMS ==> e.row.currentState == s.state
  }

  /** A span begins at an event in its state, which is the reason for it. */
  ghost predicate BeginsAt(told: seq<OutEvent>, state: string, reason: string, atMS: int) {
    exists k :: 0 <= k < |told| && told[k].eventAtMS == atMS && told[k].row.currentState == state
                && told[k].row.kind == reason
  }

  ghost predicate Pure(spans: seq<OutSpan>, told: seq<OutEvent>) {
    && (forall j, k | 0 <= j < |spans| && 0 <= k < |told| :: Agree(spans[j], told[k]))
    && forall j | 0 <= j < |spans| :: BeginsAt(told, spans[j].state, spans[j].entryReason, spans[j].enteredAtMS)
  }

  ghost predicate PureOpen(told: seq<OutEvent>, o: Option<OpenSpan>) {
    o.Some? ==>
      && BeginsAt(told, o.value.state, o.value.entryReason, o.value.enteredMS)
      && forall k | 0 <= k < |told| && o.value.enteredMS < told[k].eventAtMS ::
           told[k].row.currentState == o.value.state
  }

  /** The spans and the telling events of all intervals, and the open span. */
  ghost predicate AllPure(spans: seq<OutSpan>, told: seq<OutEvent>, o: Option<OpenSpan>, now: int) {
    && Pure(spans, told) && PureOpen(told, o)
    && (forall k | 0 <= k < |told| :: told[k].eventAtMS <= now)
    && forall k | 0 <= k < |spans| :: spans[k].exitedAtMS <= now
  }

  lemma BeginsMore(told: seq<OutEvent>, e: OutEvent, state: string, reason: string, atMS: int)
    ensures BeginsAt(told, state, reason, atMS) ==> BeginsAt(told + [e], state, reason, atMS)
    ensures BeginsAt(told + [e], e.row.currentState, e.row.kind, e.eventAtMS)
  {
    var more := told + [e];
    assert more[|told|] == e && forall k | 0 <= k < |told| :: more[k] == told[k];
  }

  lemma ClosedPure(spans: seq<OutSpan>, told: seq<OutEvent>, o: OpenSpan, s: OutSpan)
    requires Pure(spans, told) && PureOpen(told, Some(o))
    requires s.state == o.state && s.enteredAtMS == o.enteredMS && s.entryReason == o.entryReason
    ensures Pure(spans + [s], told)
  {
    hide BeginsAt;
  }

  lemma ToldPure(spans: seq<OutSpan>, told: seq<OutEvent>, e: OutEvent)
    requires Pure(spans, told) && forall k | 0 <= k < |spans| :: spans[k].exitedAtMS <= e.eventAtMS
    ensures Pure(spans, told + [e])
  {
    hide BeginsAt;
    var more := told + [e];
    forall j | 0 <= j < |spans| ensures BeginsAt(more, spans[j].state, spans[j].entryReason, spans[j].enteredAtMS) {
      BeginsMore(told, e, spans[j].state, spans[j].entryReason, spans[j].enteredAtMS);
    }
  }

  lemma OpenAgrees(told: seq<OutEvent>, o: OpenSpan, e: OutEvent)
    requires PureOpen(told, Some(o)) && o.state == e.row.currentState
    ensures PureOpen(told + [e], Some(o))
  {
    hide BeginsAt;
    BeginsMore(told, e, o.state, o.entryReason, o.enteredMS);
  }

  lemma OpensAtEvent(told: seq<OutEvent>, o: OpenSpan, e: OutEvent)
    requires o.state == e.row.currentState && o.enteredMS == e.eventAtMS && o.entryReason == e.row.kind
    requires forall k | 0 <= k < |told| :: told[k].eventAtMS <= e.eventAtMS
    ensures PureOpen(told + [e], Some(o))
  {
    hide BeginsAt;
    BeginsMore(told, e, o.state, o.entryReason, o.enteredMS);
  }

  /** The spans of all intervals after the open span was closed. */
  lemma SpansClosed(t: State, atMS: int, reason: string, told: seq<OutEvent>, now: int)
    requires t.current.Some? && AllPure(All(SpansOf, t), told, t.openState, now) && atMS <= now
    ensures var r := CloseStateSpan(t, atMS, reason); AllPure(All(SpansOf, r), told, r.openState, now)
  {
    hide Pure;
    var r := CloseStateSpan(t, atMS, reason);
    if r != t {
      var s := Last(r.current.value.stateDurations);
      assert All(SpansOf, r) == All(SpansOf, t) + [s];
      ClosedPure(All(SpansOf, t), told, t.openState.value, s);
    }
  }

  lemma AllLater(spans: seq<OutSpan>, told: seq<OutEvent>, o: Option<OpenSpan>, now: int, later: int)
    requires AllPure(spans, told, o, now) && now <= later
    ensures AllPure(spans, told, o, later)
  {
    hide Pure, PureOpen;
  }

  lemma ClosePure(t: State, atMS: int, forced: Option<Result>, now: int)
    requires AllPure(All(SpansOf, t), All(Told, t), t.openState, now) && atMS <= now
    ensures var c := CloseInterval(t, atMS, forced); AllPure(All(SpansOf, c), All(Told, c), c.openState, now)
  {
    hide CloseInterval, AllPure, Told, CloseStateSpan;
    if t.current.Some? {
      CloseSpans(t, atMS, forced);
      SpansClosed(t, atMS, "interval_end", All(Told, t), now);
      var c := CloseInterval(t, atMS, forced);
      ToldSame(t.current.value, Last(c.finished));
      assert Front(c.finished) == t.finished;
      assert All(SpansOf, c) == Flat(SpansOf, t.finished) + Last(c.finished).stateDurations
             == All(SpansOf, CloseStateSpan(t, atMS, "interval_end"));
      assert All(Told, c) == Flat(Told, t.finished) + Told(Last(c.finished)) == All(Told, t);
    } else {
      NothingCloses(t, atMS, forced);
    }
  }

  lemma OpenPure(cfg: Settings, t: State, i: Input, now: int)
    requires AllPure(All(SpansOf, t), All(Told, t), t.openState, now) && OpenAtMS(i) <= now
    ensures var r := Opened(cfg, t, i); AllPure(All(SpansOf, r), All(Told, r), r.openState, now)
  {
    hide CloseInterval, EnsureInterval, AllPure, SynthKey, SameRows, SameTally, Flat;
    EnsureShape(cfg, t, KeyOf(i), StateOf(t, i), OpenAtMS(i));
    var forced := if Overdue(cfg, t, OpenAtMS(i)) then Some(ForcedResult(t.current.value)) else None;
    ClosePure(t, OpenAtMS(i), forced, now);
    CloseFrame(t, OpenAtMS(i), forced);
    var r := Opened(cfg, t, i);
    if r != t {
      assert Told(r.current.value) == [] && SpansOf(r.current.value) == [];
    }
  }

  lemma EventPure(cfg: Settings, t: State, e: FsmEvent, now: int)
    requires t.current.Some? && AllPure(All(SpansOf, t), All(Told, t), t.openState, now)
    ensures var r := RecordEvent(cfg, t, e, now); AllPure(All(SpansOf, r), All(Told, r), r.openState, now)
  {
    hide Pure, PureOpen, Told, CloseStateSpan, RecordEvent, CountIn, Flat;
    var t1 := t.(current := Some(CountIn(t.current.value, e)));
    var t2, r := TrackStateSpan(t1, e, now), RecordEvent(cfg, t, e, now);
    var out, told := OutEvent(now, t.current.value.orderKey, e), All(Told, t);
    EventFiled(cfg, t, e, now);
    ToldMore(t.current.value, r.current.value, out);
    CountingKeepsSpans(t, e);
    assert All(SpansOf, r) == All(SpansOf, t2);
    if TellsState(out) {
      assert All(Told, r) == told + [out];
      if t.openState.Some? && t.openState.value.state == e.currentState {
        OpenAgrees(told, t.openState.value, out);
      } else {
        OpensAtEvent(told, r.openState.value, out);
        if t.openState.Some? {
          SpansClosed(t1, now, e.kind, told, now);
          SameSpansAll(CloseStateSpan(t1, now, e.kind), t2);
        }
      }
      ToldPure(All(SpansOf, t2), told, out);
    } else {
      assert All(Told, r) == told;
    }
  }

  lemma CountingKeepsSpans(t: State, e: FsmEvent)
    requires t.current.Some?
    ensures All(SpansOf, t.(current := Some(CountIn(t.current.value, e)))) == All(SpansOf, t)
  {
  }

  lemma SameSpansAll(t: State, r: State)
    requires r.current == t.current && r.finished == t.finished
    ensures All(SpansOf, r) == All(SpansOf, t)
  {
  }

  lemma RecordPure(cfg: Settings, t: State, i: Input, now: int)
    requires t.current.Some? && AllPure(All(SpansOf, t), All(Told, t), t.openState, now) && now == AtMS(i)
    ensures var r := Record(cfg, t, i); AllPure(All(SpansOf, r), All(Told, r), r.openState, now)
  {
    hide RecordEvent, Record, AllPure, Told, Flat;
    if i.Apply? && i.row.EventRow? {
      EventPure(cfg, t, i.row.event, now);
      RecordsEvent(cfg, t, i, i.row.event);
    } else {
      OthersSayNothing(cfg, t, i);
      ToldSame(t.current.value, Record(cfg, t, i).current.value);
    }
  }

  lemma StepPure(cfg: Settings, t: State, i: Input, now: int)
    requires AllPure(All(SpansOf, t), All(Told, t), t.openState, now) && now <= AtMS(i) && OpenAtMS(i) <= AtMS(i)
    ensures var r := Step(cfg, t, i); AllPure(All(SpansOf, r), All(Told, r), r.openState, AtMS(i))
  {
    hide CloseInterval, Opened, Record, VerdictOf, AllPure, All;
    AllLater(All(SpansOf, t), All(Told, t), t.openState, now, AtMS(i));
    OpenPure(cfg, t, i, AtMS(i));
    var t1 := Opened(cfg, t, i);
    RecordPure(cfg, t1, i, AtMS(i));
    ClosePure(Record(cfg, t1, i), AtMS(i), VerdictOf(cfg, t1, i), AtMS(i));
  }

  lemma {:induction false} RunPure(cfg: Settings, start: int, inputs: seq<Input>)
    requires TimeOrdered(start, inputs)
    ensures var r := Run(cfg, INITIAL, inputs); AllPure(All(SpansOf, r), All(Told, r), r.openState, Now(start, inputs))
  {
    hide Step, AllPure, All;
    if inputs != [] {
      TimeOrderedFront(start, inputs);
      RunPure(cfg, start, Front(inputs));
      StepPure(cfg, Run(cfg, INITIAL, Front(inputs)), Last(inputs), Now(start, Front(inputs)));
    } else {
      InitialPure(start);
    }
  }

  lemma InitialPure(now: int)
    ensures AllPure(All(SpansOf, INITIAL), All(Told, INITIAL), INITIAL.openState, now)
  {
  }

  // ---------------------------------------------------------------------------
  // Main results
  // ---------------------------------------------------------------------------

  /** On both paths a span, of whatever interval, begins at an event in its state and for its reason, and no event of
      any interval that lies inside it tells another state. */
  lemma SpansAgreeWithEvents(cfg: Settings, start: int, inputs: seq<Input>, closeAt: int, s: OutSpan)
    requires TimeOrdered(start, inputs) && Now(start, inputs) <= closeAt
    requires s in Flat(SpansOf, WholeRun(cfg, inputs, closeAt).finished)
    ensures var events := Flat(Told, WholeRun(cfg, inputs, closeAt).finished);
            && (exists e :: e in events && e.eventAtMS == s.enteredAtMS && e.row.currentState == s.state
                            && e.row.kind == s.entryReason)
            && (forall e | e in events && s.enteredAtMS < e.eventAtMS < s.exitedAtMS :: e.row.currentState == s.state)
  {
    hide Run, CloseInterval, Step, Flat, SameRows, SameTally, Told;
    var t, f := Run(cfg, INITIAL, inputs), WholeRun(cfg, inputs, closeAt);
    RunPure(cfg, start, inputs);
    FlushIsClose(cfg, inputs, closeAt);
    var end := FlushAt(t, closeAt);
    var later := if end < closeAt then closeAt else end;
    AllLater(All(SpansOf, t), All(Told, t), t.openState, Now(start, inputs), later);
    ClosePure(t, end, FlushResult(t), later);
    CloseFrame(t, end, FlushResult(t));
    NothingOpen(f);
    var spans, events := Flat(SpansOf, f.finished), Flat(Told, f.finished);
    var j :| 0 <= j < |spans| && spans[j] == s;
    assert BeginsAt(events, spans[j].state, spans[j].entryReason, spans[j].enteredAtMS);
    forall e | e in events && s.enteredAtMS < e.eventAtMS < s.exitedAtMS ensures e.row.currentState == s.state {
      var k :| 0 <= k < |events| && events[k] == e;
      assert Agree(spans[j], events[k]);
    }
  }

  lemma NothingOpen(f: State)
    requires f.current.None?
    ensures All(SpansOf, f) == Flat(SpansOf, f.finished) && All(Told, f) == Flat(Told, f.finished)
  {
  }

  /** In an interval of a base-path run, from an event that tells the state to the next one, or to the end of the
      interval, one span in that state holds. */
  lemma StatesAreHeld(cfg: Settings, start: int, inputs: seq<Input>, closeAt: int, iv: Interval)
    requires BasePath(start, inputs) && Now(start, inputs) <= closeAt
    requires iv in WholeRun(cfg, inputs, closeAt).finished
    ensures EventsInTime(Told(iv), iv.endedMS) && AllHeld(iv.stateDurations, Told(iv), iv.endedMS)
  {
    hide Run, CloseInterval, ShownOpen, EventsInTime, AllHeld;
    var t := Run(cfg, INITIAL, inputs);
    RunShown(cfg, start, inputs);
    FlushIsClose(cfg, inputs, closeAt);
    CloseShown(t, FlushAt(t, closeAt), FlushResult(t), Now(start, inputs));
  }

  /** What the last telling event at or before an instant says. */
  function StateAt(told: seq<OutEvent>, ms: int): string {
    if told == [] then "" else if Last(told).eventAtMS <= ms then Last(told).row.currentState
    else StateAt(Front(told), ms)
  }

  lemma {:induction false} LastTold(told: seq<OutEvent>, ms: int, now: int) returns (k: nat)
    requires EventsInTime(told, now) && told != [] && told[0].eventAtMS <= ms
    ensures k < |told| && told[k].eventAtMS <= ms && StateAt(told, ms) == told[k].row.currentState
    ensures k + 1 < |told| ==> ms < told[k + 1].eventAtMS
  {
    if Last(told).eventAtMS <= ms {
      k := |told| - 1;
    } else {
      k := LastTold(Front(told), ms, now);
    }
  }

  ghost predicate InStateAt(spans: seq<OutSpan>, state: string, ms: int) {
    exists k :: 0 <= k < |spans| && spans[k].state == state && spans[k].enteredAtMS <= ms < spans[k].exitedAtMS
  }

  /** In an interval of a base-path run, from its first telling event on, the spans put the machine in a state at an
      instant exactly when the last event up to that instant says so. */
  lemma SpansTellTheState(cfg: Settings, start: int, inputs: seq<Input>, closeAt: int, iv: Interval, ms: int,
                          state: string)
    requires BasePath(start, inputs) && Now(start, inputs) <= closeAt
    requires iv in WholeRun(cfg, inputs, closeAt).finished
    requires Told(iv) != [] && Told(iv)[0].eventAtMS <= ms < iv.endedMS
    ensures InStateAt(iv.stateDurations, state, ms) <==> state == StateAt(Told(iv), ms)
  {
    hide WholeRun, BasePath, Now, Told, Disjoint;
    StatesAreHeld(cfg, start, inputs, closeAt, iv);
    var told, spans := Told(iv), iv.stateDurations;
    var k := LastTold(told, ms, iv.endedMS);
    assert Held(spans, told[k].row.currentState, told[k].eventAtMS, Until(told, k, iv.endedMS));
    var m :| 0 <= m < |spans| && spans[m].state == told[k].row.currentState
             && spans[m].enteredAtMS <= told[k].eventAtMS && Until(told, k, iv.endedMS) <= spans[m].exitedAtMS;
    assert InStateAt(spans, told[k].row.currentState, ms);
    SpansOfOneInterval(cfg, start, inputs, closeAt, iv);
    OneAtATime(spans, m, state, ms);
  }

  lemma OneAtATime(spans: seq<OutSpan>, m: nat, state: string, ms: int)
    requires Disjoint(spans) && m < |spans| && spans[m].enteredAtMS <= ms < spans[m].exitedAtMS
    ensures InStateAt(spans, state, ms) ==> state == spans[m].state
  {
  }

  lemma SpansOfOneInterval(cfg: Settings, start: int, inputs: seq<Input>, closeAt: int, iv: Interval)
    requires BasePath(start, inputs) && Now(start, inputs) <= closeAt
    requires iv in WholeRun(cfg, inputs, closeAt).finished
    ensures Disjoint(iv.stateDurations)
  {
    hide Run, SpansInOrder, CloseInterval, Disjoint, FlushOpen;
    var f := WholeRun(cfg, inputs, closeAt);
    FinishedDisjoint(cfg, start, inputs, closeAt);
    PartDisjoint(f.finished, iv);
  }

  lemma SplitDisjoint(a: seq<OutSpan>, b: seq<OutSpan>)
    requires Disjoint(a + b)
    ensures Disjoint(a) && Disjoint(b)
  {
    var s := a + b;
    assert forall k | 0 <= k < |a| :: a[k] == s[k];
    assert forall k | 0 <= k < |b| :: b[k] == s[|a| + k];
  }

  lemma {:induction false} PartDisjoint(ivs: seq<Interval>, iv: Interval)
    requires Disjoint(Flat(SpansOf, ivs)) && iv in ivs
    ensures Disjoint(iv.stateDurations)
  {
    hide Disjoint;
    var front, last := Front(ivs), Last(ivs);
    SplitDisjoint(Flat(SpansOf, front), SpansOf(last));
    assert ivs == front + [last];
    if iv != last {
      PartDisjoint(front, iv);
    }
  }
}
