/** Dwells derived from events (cmd/projector/tracker.go): on the base path each lane is tiled without a gap. */
module Dwells {
  import opened Sorting
  import opened Source
  import opened Intervals
  import opened TrackerSpec
  import opened Frames

  function InLane(lane: Lane): OutDwell -> bool {
    (d: OutDwell) => d.lane == lane
  }

  function IsKept(isProduction: bool): OutDwell -> bool {
    (d: OutDwell) => EmitsDwell(d.state, isProduction)
  }

  /** The dwells of one lane, suppressed ones included. */
  function LaneLog(iv: Interval, lane: Lane): seq<OutDwell> {
    Filter(InLane(lane), iv.dwellLog)
  }

  /** The instant of the first event of a lane. */
  function FirstAt(events: seq<OutEvent>, lane: Lane): Option<int> {
    if events == [] then None
    else if FirstAt(Front(events), lane).Some? then FirstAt(Front(events), lane)
    else if LaneForState(Last(events).row.currentState) == lane then Some(Last(events).eventAtMS)
    else None
  }

  /** Dwells of positive length that lead from one instant to another without gap or overlap. */
  ghost predicate Tiles(log: seq<OutDwell>, from: int, to: int) {
    if log == [] then from == to
    else
      var d := Last(log);
      d.endedAtMS == to && d.startedAtMS < to && d.durationMS == to - d.startedAtMS
      && Tiles(Front(log), from, d.startedAtMS)
  }

  /** Sequence numbers count up, all below `next`. */
  ghost predicate Numbered(log: seq<OutDwell>, next: int) {
    && (forall k | 0 <= k < |log| :: 0 <= log[k].seqIndex < next)
    && (forall j, k | 0 <= j < k < |log| :: log[j].seqIndex < log[k].seqIndex)
  }

  /** One lane of the open interval: tiled from its first event to its open dwell. */
  ghost predicate LaneOpen(t: State, lane: Lane, now: int)
    requires t.current.Some?
  {
    var iv := t.current.value;
    var first := FirstAt(iv.events, lane);
    if first.None? then lane !in t.openDwells && LaneLog(iv, lane) == [] && NextSeq(t, lane) == 0
    else
      && lane in t.openDwells && t.openDwells[lane].startedMS <= now
      && Tiles(LaneLog(iv, lane), first.value, t.openDwells[lane].startedMS)
      && Numbered(LaneLog(iv, lane), t.openDwells[lane].seqIndex)
      && 0 <= t.openDwells[lane].seqIndex < NextSeq(t, lane)
  }

  /** One lane of a closed interval: tiled from its first event to the end of the interval. */
  ghost predicate LaneClosed(iv: Interval, lane: Lane) {
    var first := FirstAt(iv.events, lane);
    if first.None? then LaneLog(iv, lane) == []
    else Tiles(LaneLog(iv, lane), first.value, iv.endedMS) && exists next :: Numbered(LaneLog(iv, lane), next)
  }

  predicate KeptOnly(iv: Interval) {
    iv.stepDwells == Filter(IsKept(iv.isProduction), iv.dwellLog)
  }

  ghost predicate Tiled(t: State, now: int) {
    && (t.current.Some? ==> KeptOnly(t.current.value) && forall lane :: LaneOpen(t, lane, now))
    && (t.current.None? ==> t.openDwells == map[])
    && forall k | 0 <= k < |t.finished| :: KeptOnly(t.finished[k]) && forall lane :: LaneClosed(t.finished[k], lane)
  }

  // ---------------------------------------------------------------------------
  // Closing one dwell
  // ---------------------------------------------------------------------------

  lemma WithDwellLog(iv: Interval, d: OutDwell, lane: Lane)
    requires KeptOnly(iv)
    ensures KeptOnly(WithDwell(iv, d))
    ensures LaneLog(WithDwell(iv, d), lane) == LaneLog(iv, lane) + if d.lane == lane then [d] else []
  {
    FilterSnoc(IsKept(iv.isProduction), iv.dwellLog, d);
    FilterSnoc(InLane(lane), iv.dwellLog, d);
  }

  lemma CloseDwellTiles(t: State, lane: Lane, atMS: int, other: Lane, now: int)
    requires t.current.Some? && KeptOnly(t.current.value) && LaneOpen(t, lane, now) && now <= atMS
    ensures var r := CloseDwell(t, lane, atMS);
            var log := LaneLog(r.current.value, lane);
            var first := FirstAt(t.current.value.events, lane);
            && KeptOnly(r.current.value)
            && (if first.None? then log == []
                else Tiles(log, first.value, atMS) && Numbered(log, t.openDwells[lane].seqIndex + 1))
            && (other != lane ==> LaneLog(r.current.value, other) == LaneLog(t.current.value, other))
  {
    hide LaneLog, KeptOnly, FirstAt, Tiles, Numbered, WithDwell;
    if lane in t.openDwells {
      var iv, d := t.current.value, t.openDwells[lane];
      NumberedLater(LaneLog(iv, lane), d.seqIndex, d.seqIndex + 1);
      if d.startedMS < atMS {
        var row := DwellRow(d, lane, iv.orderKey, atMS);
        WithDwellLog(iv, row, lane);
        WithDwellLog(iv, row, other);
        if FirstAt(iv.events, lane).Some? {
          OneMoreTile(LaneLog(iv, lane), FirstAt(iv.events, lane).value, row);
        }
      }
    }
  }

  lemma NumberedLater(log: seq<OutDwell>, next: int, later: int)
    requires Numbered(log, next) && next <= later
    ensures Numbered(log, later)
  {
  }

  lemma OneMoreTile(log: seq<OutDwell>, from: int, d: OutDwell)
    requires Tiles(log, from, d.startedAtMS) && Numbered(log, d.seqIndex) && 0 <= d.seqIndex
    requires d.startedAtMS < d.endedAtMS && d.durationMS == d.endedAtMS - d.startedAtMS
    ensures Tiles(log + [d], from, d.endedAtMS) && Numbered(log + [d], d.seqIndex + 1)
  {
    assert Front(log + [d]) == log && Last(log + [d]) == d;
  }

  lemma CloseDwellKeepsOthers(t: State, lane: Lane, atMS: int, other: Lane, now: int)
    requires t.current.Some? && KeptOnly(t.current.value) && LaneOpen(t, lane, now) && now <= atMS
    requires other != lane && LaneOpen(t, other, now)
    ensures LaneOpen(CloseDwell(t, lane, atMS), other, now)
  {
    hide LaneLog, KeptOnly, Tiles, Numbered;
    CloseDwellTiles(t, lane, atMS, other, now);
  }

  // ---------------------------------------------------------------------------
  // Closing an interval
  // ---------------------------------------------------------------------------

  /** A lane after its dwell was closed. */
  ghost predicate LaneDone(t: State, lane: Lane, atMS: int)
    requires t.current.Some?
  {
    var iv := t.current.value;
    var first := FirstAt(iv.events, lane);
    if first.None? then LaneLog(iv, lane) == []
    else Tiles(LaneLog(iv, lane), first.value, atMS) && exists next :: Numbered(LaneLog(iv, lane), next)
  }

  lemma CloseDwellDone(t: State, lane: Lane, atMS: int, now: int)
    requires t.current.Some? && KeptOnly(t.current.value) && LaneOpen(t, lane, now) && now <= atMS
    ensures LaneDone(CloseDwell(t, lane, atMS), lane, atMS) && KeptOnly(CloseDwell(t, lane, atMS).current.value)
  {
    hide LaneLog, KeptOnly, Tiles, Numbered, FirstAt, CloseDwell;
    CloseDwellTiles(t, lane, atMS, lane, now);
  }

  lemma DoneStays(t: State, lane: Lane, atMS: int, other: Lane, now: int)
    requires t.current.Some? && KeptOnly(t.current.value) && LaneOpen(t, lane, now) && now <= atMS
    requires other != lane && LaneDone(t, other, atMS)
    ensures LaneDone(CloseDwell(t, lane, atMS), other, atMS)
  {
    hide LaneLog, KeptOnly, Tiles, Numbered, FirstAt, CloseDwell;
    CloseDwellTiles(t, lane, atMS, other, now);
  }

  lemma CloseDwellsDone(t: State, atMS: int, now: int)
    requires t.current.Some? && KeptOnly(t.current.value) && now <= atMS
    requires forall lane :: LaneOpen(t, lane, now)
    ensures var r := CloseOpenDwells(t, atMS);
            KeptOnly(r.current.value) && forall lane :: LaneDone(r, lane, atMS)
  {
    hide LaneOpen, LaneDone, KeptOnly, CloseDwell;
    var t1 := CloseDwell(t, Crusher, atMS);
    CloseDwellDone(t, Crusher, atMS, now);
    CloseDwellKeepsOthers(t, Crusher, atMS, Main, now);
    CloseDwellKeepsOthers(t, Crusher, atMS, Tilter, now);
    var t2 := CloseDwell(t1, Main, atMS);
    CloseDwellDone(t1, Main, atMS, now);
    CloseDwellKeepsOthers(t1, Main, atMS, Tilter, now);
    DoneStays(t1, Main, atMS, Crusher, now);
    CloseDwellDone(t2, Tilter, atMS, now);
    DoneStays(t2, Tilter, atMS, Crusher, now);
    DoneStays(t2, Tilter, atMS, Main, now);
    forall lane ensures LaneDone(CloseOpenDwells(t, atMS), lane, atMS) {
      match lane { case Crusher => case Main => case Tilter => }
    }
  }

  lemma CloseTiled(t: State, atMS: int, forced: Option<Result>, now: int)
    requires Tiled(t, now) && now <= atMS
    ensures Tiled(CloseInterval(t, atMS, forced), atMS)
  {
    hide LaneOpen, KeptOnly, CloseOpenDwells, CloseStateSpan, DominantKey;
    if t.current.Some? {
      var t1 := CloseOpenDwells(t, atMS);
      CloseDwellsDone(t, atMS, now);
      var c := CloseInterval(t, atMS, forced);
      SealedTiled(t1, Last(c.finished), atMS);
      assert c.finished == t.finished + [Last(c.finished)];
    }
  }

  lemma SealedTiled(t: State, iv: Interval, atMS: int)
    requires t.current.Some? && KeptOnly(t.current.value) && forall lane :: LaneDone(t, lane, atMS)
    requires iv.events == t.current.value.events && iv.dwellLog == t.current.value.dwellLog && iv.endedMS == atMS
    requires iv.stepDwells == t.current.value.stepDwells && iv.isProduction == t.current.value.isProduction
    ensures KeptOnly(iv) && forall lane :: LaneClosed(iv, lane)
  {
    hide Tiles, Numbered, FirstAt;
    forall lane ensures LaneClosed(iv, lane) {
      assert LaneDone(t, lane, atMS);
      assert LaneLog(iv, lane) == LaneLog(t.current.value, lane);
    }
  }

  // ---------------------------------------------------------------------------
  // Opening and recording
  // ---------------------------------------------------------------------------

  lemma FreshTiled(t: State, orderKey: string, state: string, atMS: int, now: int)
    requires Tiled(t, now) && t.current.None?
    ensures Tiled(Fresh(t, orderKey, state, atMS), now)
  {
    hide SynthKey;
  }

  lemma OpenTiled(cfg: Settings, t: State, i: Input, now: int)
    requires Tiled(t, now) && now <= OpenAtMS(i)
    ensures Tiled(Opened(cfg, t, i), OpenAtMS(i))
  {
    hide CloseInterval, EnsureInterval, Fresh, Tiled;
    var at := OpenAtMS(i);
    EnsureShape(cfg, t, KeyOf(i), StateOf(t, i), at);
    var forced := if Overdue(cfg, t, at) then Some(ForcedResult(t.current.value)) else None;
    var c := CloseInterval(t, at, forced);
    CloseTiled(t, at, forced, now);
    CloseFrame(t, at, forced);
    if Opened(cfg, t, i) == t {
      TiledLater(t, now, at);
    } else {
      FreshTiled(c, KeyOf(i), StateOf(t, i), at, at);
    }
  }

  lemma TiledLater(t: State, now: int, later: int)
    requires Tiled(t, now) && now <= later
    ensures Tiled(t, later)
  {
    hide LaneOpen, KeptOnly, LaneClosed;
    if t.current.Some? {
      forall lane ensures LaneOpen(t, lane, later) {
        LaneOpenLater(t, lane, now, later);
      }
    }
  }

  /** What LaneOpen looks at. */
  predicate SameLane(t: State, r: State, lane: Lane)
    requires t.current.Some? && r.current.Some?
  {
    && FirstAt(r.current.value.events, lane) == FirstAt(t.current.value.events, lane)
    && r.current.value.dwellLog == t.current.value.dwellLog
    && (lane in r.openDwells <==> lane in t.openDwells)
    && (lane in r.openDwells ==> r.openDwells[lane].startedMS == t.openDwells[lane].startedMS
                                 && r.openDwells[lane].seqIndex == t.openDwells[lane].seqIndex)
    && NextSeq(r, lane) == NextSeq(t, lane)
  }

  lemma SameLaneOpen(t: State, r: State, lane: Lane, now: int)
    requires t.current.Some? && r.current.Some? && LaneOpen(t, lane, now) && SameLane(t, r, lane)
    ensures LaneOpen(r, lane, now)
  {
    hide Tiles, Numbered, FirstAt, NextSeq;
  }

  lemma OthersKeepDwells(cfg: Settings, t: State, i: Input, lane: Lane)
    requires t.current.Some? && !IsStepRun(i) && !(i.Apply? && i.row.EventRow?)
    ensures var r := Record(cfg, t, i);
            SameLane(t, r, lane) && r.current.value.stepDwells == t.current.value.stepDwells
  {
    hide RecordFault, ApplyDoorSignals, FirstAt;
    if i.Apply? && i.row.FaultRow? {
      FaultKeepsDwells(cfg, t, i.row.fault, AtMS(i), lane);
    }
  }

  lemma FaultKeepsDwells(cfg: Settings, t: State, f: Fault, atMS: int, lane: Lane)
    requires t.current.Some?
    ensures var r := RecordFault(cfg, t, f, atMS);
            SameLane(t, r, lane) && r.current.value.stepDwells == t.current.value.stepDwells
  {
    hide LedgerFaultKey, RecordLedgerFault, FirstAt;
  }

  /** The dwell a lane has after an event: the running one, or a new one that starts at the event. */
  lemma TrackedLane(t: State, e: FsmEvent, atMS: int, now: int)
    requires t.current.Some? && KeptOnly(t.current.value)
    requires LaneOpen(t, LaneForState(e.currentState), now) && now <= atMS
    ensures var lane := LaneForState(e.currentState);
            var r := TrackDwell(t, e, atMS);
            var first := FirstAt(t.current.value.events, lane);
            var log := LaneLog(r.current.value, lane);
            && lane in r.openDwells && r.openDwells[lane].startedMS <= atMS
            && Tiles(log, if first.Some? then first.value else atMS, r.openDwells[lane].startedMS)
            && Numbered(log, r.openDwells[lane].seqIndex) && 0 <= r.openDwells[lane].seqIndex < NextSeq(r, lane)
            && KeptOnly(r.current.value)
  {
    hide LaneLog, KeptOnly, FirstAt, CloseDwell, Numbered;
    var lane := LaneForState(e.currentState);
    var t1 := if lane in t.openDwells then t.(openDwells := t.openDwells[lane := CountEvent(t.openDwells[lane], e)])
              else t;
    SameLaneOpen(t, t1, lane, now);
    CloseDwellTiles(t1, lane, atMS, lane, now);
    if lane in t1.openDwells {
      NumberedLater(LaneLog(CloseDwell(t1, lane, atMS).current.value, lane), t1.openDwells[lane].seqIndex + 1,
                    NextSeq(t1, lane));
    } else {
      NoneNumbered(0);
    }
  }

  lemma NoneNumbered(next: int)
    ensures Numbered([], next)
  {
  }

  lemma TrackedOthers(t: State, e: FsmEvent, atMS: int, other: Lane, now: int)
    requires t.current.Some? && KeptOnly(t.current.value)
    requires LaneOpen(t, LaneForState(e.currentState), now) && now <= atMS
    requires other != LaneForState(e.currentState) && LaneOpen(t, other, now)
    ensures LaneOpen(TrackDwell(t, e, atMS), other, now)
  {
    hide LaneLog, KeptOnly, FirstAt, CloseDwell, Numbered, Tiles;
    var lane := LaneForState(e.currentState);
    var t1 := if lane in t.openDwells then t.(openDwells := t.openDwells[lane := CountEvent(t.openDwells[lane], e)])
              else t;
    SameLaneOpen(t, t1, lane, now);
    CloseDwellTiles(t1, lane, atMS, other, now);
  }

  lemma AddedEvent(t: State, e: FsmEvent, atMS: int, lane: Lane)
    requires t.current.Some?
    ensures FirstAt(AddEvent(t, e, atMS).current.value.events, lane)
         == if FirstAt(t.current.value.events, lane).Some? then FirstAt(t.current.value.events, lane)
            else if LaneForState(e.currentState) == lane then Some(atMS) else None
  {
    var events := t.current.value.events;
    var more := events + [OutEvent(atMS, t.current.value.orderKey, e)];
    assert Front(more) == events && Last(more).row == e;
  }

  /** The states of an event between making sure of the interval and filing the event. */
  function BeforeDwell(t: State, e: FsmEvent, atMS: int): State
    requires t.current.Some?
  {
    TrackStateSpan(t.(current := Some(CountIn(t.current.value, e))), e, atMS)
  }

  lemma EventTiled(cfg: Settings, t: State, e: FsmEvent, atMS: int, lane: Lane, now: int)
    requires t.current.Some? && KeptOnly(t.current.value) && now <= atMS && !cfg.useStepRuns
    requires LaneOpen(t, LaneForState(e.currentState), now) && LaneOpen(t, lane, now)
    ensures var r := RecordEvent(cfg, t, e, atMS); KeptOnly(r.current.value) && LaneOpen(r, lane, atMS)
  {
    hide LaneOpen, FirstAt, LaneLog, TrackStateSpan, TrackDwell, KeptOnly;
    var t2 := BeforeDwell(t, e, atMS);
    SameLaneOpen(t, t2, LaneForState(e.currentState), now);
    SameLaneOpen(t, t2, lane, now);
    KeptStill(t, t2);
    OwnLane(t2, e, atMS, now);
    if lane != LaneForState(e.currentState) {
      OtherLane(t2, e, atMS, lane, now);
    }
  }

  lemma OwnLane(t: State, e: FsmEvent, atMS: int, now: int)
    requires t.current.Some? && KeptOnly(t.current.value)
    requires LaneOpen(t, LaneForState(e.currentState), now) && now <= atMS
    ensures var r := AddEvent(TrackDwell(t, e, atMS), e, atMS);
            KeptOnly(r.current.value) && LaneOpen(r, LaneForState(e.currentState), atMS)
  {
    hide Tiles, Numbered, FirstAt, LaneLog, TrackDwell, KeptOnly;
    var t3 := TrackDwell(t, e, atMS);
    TrackedLane(t, e, atMS, now);
    AddedEvent(t3, e, atMS, LaneForState(e.currentState));
    KeptStill(t3, AddEvent(t3, e, atMS));
    LogStill(t3, AddEvent(t3, e, atMS), LaneForState(e.currentState));
  }

  lemma OtherLane(t: State, e: FsmEvent, atMS: int, other: Lane, now: int)
    requires t.current.Some? && KeptOnly(t.current.value)
    requires LaneOpen(t, LaneForState(e.currentState), now) && now <= atMS
    requires other != LaneForState(e.currentState) && LaneOpen(t, other, now)
    ensures LaneOpen(AddEvent(TrackDwell(t, e, atMS), e, atMS), other, atMS)
  {
    hide LaneOpen, FirstAt, TrackDwell, KeptOnly;
    var t3 := TrackDwell(t, e, atMS);
    TrackedOthers(t, e, atMS, other, now);
    AddedEvent(t3, e, atMS, other);
    SameLaneOpen(t3, AddEvent(t3, e, atMS), other, now);
    LaneOpenLater(AddEvent(t3, e, atMS), other, now, atMS);
  }

  lemma LaneOpenLater(t: State, lane: Lane, now: int, later: int)
    requires t.current.Some? && LaneOpen(t, lane, now) && now <= later
    ensures LaneOpen(t, lane, later)
  {
    hide LaneLog, Tiles, Numbered, FirstAt;
  }

  lemma KeptStill(t: State, r: State)
    requires t.current.Some? && r.current.Some? && KeptOnly(t.current.value)
    requires r.current.value.dwellLog == t.current.value.dwellLog
    requires r.current.value.stepDwells == t.current.value.stepDwells
    requires r.current.value.isProduction == t.current.value.isProduction
    ensures KeptOnly(r.current.value)
  {
  }

  lemma LogStill(t: State, r: State, lane: Lane)
    requires t.current.Some? && r.current.Some? && r.current.value.dwellLog == t.current.value.dwellLog
    ensures LaneLog(r.current.value, lane) == LaneLog(t.current.value, lane)
  {
  }

  lemma RecordTiled(cfg: Settings, t: State, i: Input, now: int)
    requires t.current.Some? && Tiled(t, now) && now <= AtMS(i) && !IsStepRun(i) && !cfg.useStepRuns
    ensures Tiled(Record(cfg, t, i), AtMS(i))
  {
    hide LaneOpen, LaneClosed, KeptOnly, RecordEvent, RecordFault, FirstAt;
    TiledLater(t, now, AtMS(i));
    var r := Record(cfg, t, i);
    forall lane: Lane ensures LaneOpen(r, lane, AtMS(i)) && KeptOnly(r.current.value) {
      if i.Apply? && i.row.EventRow? {
        EventTiled(cfg, t, i.row.event, AtMS(i), lane, now);
      } else {
        OthersKeepDwells(cfg, t, i, lane);
        SameLaneOpen(t, r, lane, AtMS(i));
        KeptStill(t, r);
      }
    }
    assert LaneOpen(r, Main, AtMS(i));
  }

  lemma StepTiled(cfg: Settings, t: State, i: Input, now: int)
    requires Tiled(t, now) && now <= AtMS(i) && !IsStepRun(i) && !cfg.useStepRuns
    ensures Tiled(Step(cfg, t, i), AtMS(i))
  {
    hide CloseInterval, Opened, Record, VerdictOf, Tiled;
    OpenTiled(cfg, t, i, now);
    var t1 := Opened(cfg, t, i);
    RecordTiled(cfg, t1, i, AtMS(i));
    CloseTiled(Record(cfg, t1, i), AtMS(i), VerdictOf(cfg, t1, i), AtMS(i));
  }

  lemma {:induction false} RunTiled(cfg: Settings, start: int, inputs: seq<Input>)
    requires BasePath(start, inputs) && !cfg.useStepRuns
    ensures Tiled(Run(cfg, INITIAL, inputs), Now(start, inputs))
  {
    hide Step, LaneOpen, LaneClosed, KeptOnly;
    if inputs != [] {
      TimeOrderedFront(start, inputs);
      RunTiled(cfg, start, Front(inputs));
      StepTiled(cfg, Run(cfg, INITIAL, Front(inputs)), Last(inputs), Now(start, Front(inputs)));
    }
  }

  // ---------------------------------------------------------------------------
  // Main result
  // ---------------------------------------------------------------------------

  function Total(log: seq<OutDwell>): int {
    if log == [] then 0 else Total(Front(log)) + Last(log).durationMS
  }

  lemma {:induction false} TilesTotal(log: seq<OutDwell>, from: int, to: int)
    requires Tiles(log, from, to)
    ensures Total(log) == to - from
    ensures forall k | 0 <= k < |log| :: from <= log[k].startedAtMS < log[k].endedAtMS <= to
    ensures forall j, k | 0 <= j < k < |log| :: log[j].endedAtMS <= log[k].startedAtMS
  {
    if log != [] {
      TilesTotal(Front(log), from, Last(log).startedAtMS);
    }
  }

  function Suppressed(iv: Interval, lane: Lane): seq<OutDwell> {
    Filter((d: OutDwell) => !EmitsDwell(d.state, iv.isProduction), LaneLog(iv, lane))
  }

  /** Splitting a log in kept and suppressed dwells splits its total. */
  lemma {:induction false} TotalSplits(iv: Interval, log: seq<OutDwell>, lane: Lane)
    ensures var laneLog := Filter(InLane(lane), log);
            Total(laneLog) == Total(Filter(InLane(lane), Filter(IsKept(iv.isProduction), log)))
                            + Total(Filter((d: OutDwell) => !EmitsDwell(d.state, iv.isProduction), laneLog))
  {
    if log != [] {
      var front, d := Front(log), Last(log);
      TotalSplits(iv, front, lane);
      assert log == front + [d];
      OneMoreSplits(iv, front, d, lane);
    }
  }

  lemma OneMoreSplits(iv: Interval, front: seq<OutDwell>, d: OutDwell, lane: Lane)
    ensures var drop := (d: OutDwell) => !EmitsDwell(d.state, iv.isProduction);
            var keep := IsKept(iv.isProduction);
            var more := if d.lane == lane then d.durationMS else 0;
            && Total(Filter(InLane(lane), front + [d])) == Total(Filter(InLane(lane), front)) + more
            && Total(Filter(InLane(lane), Filter(keep, front + [d])))
            == Total(Filter(InLane(lane), Filter(keep, front))) + (if keep(d) then more else 0)
            && Total(Filter(drop, Filter(InLane(lane), front + [d])))
            == Total(Filter(drop, Filter(InLane(lane), front))) + (if keep(d) then 0 else more)
  {
    hide Filter, Total;
    var drop := (d: OutDwell) => !EmitsDwell(d.state, iv.isProduction);
    var keep := IsKept(iv.isProduction);
    TotalFiltered(InLane(lane), front, d);
    FilterSnoc(InLane(lane), front, d);
    FilterSnoc(keep, front, d);
    var lanes, kept := Filter(InLane(lane), front), Filter(keep, front);
    assert lanes + [] == lanes && kept + [] == kept;
    TotalFiltered(InLane(lane), kept, d);
    TotalFiltered(drop, lanes, d);
  }

  lemma TotalFiltered(p: OutDwell -> bool, s: seq<OutDwell>, d: OutDwell)
    ensures Total(Filter(p, s + [d])) == Total(Filter(p, s)) + if p(d) then d.durationMS else 0
  {
    FilterSnoc(p, s, d);
    assert Filter(p, s) + [] == Filter(p, s);
    TotalOneMore(Filter(p, s), d);
  }

  lemma TotalOneMore(log: seq<OutDwell>, d: OutDwell)
    ensures Total(log + [d]) == Total(log) + d.durationMS
  {
    assert Front(log + [d]) == log;
  }

  /** In an emitted interval of a base-path run each lane is tiled from its first event to the interval's end:
      kept and suppressed dwells are disjoint, lie inside and add up to exactly that stretch, and sequence numbers
      increase strictly. */
  ghost predicate Telescopes(iv: Interval, lane: Lane) {
    var log := LaneLog(iv, lane);
    var kept := Filter(InLane(lane), iv.stepDwells);
    var first := FirstAt(iv.events, lane);
    if first.None? then log == []
    else
      && Total(kept) + Total(Suppressed(iv, lane)) == iv.endedMS - first.value
      && (forall k | 0 <= k < |log| :: first.value <= log[k].startedAtMS < log[k].endedAtMS <= iv.endedMS)
      && (forall j, k | 0 <= j < k < |log| ::
            log[j].endedAtMS <= log[k].startedAtMS && log[j].seqIndex < log[k].seqIndex)
  }

  lemma DwellsTelescope(cfg: Settings, start: int, inputs: seq<Input>, closeAt: int, iv: Interval, lane: Lane)
    requires BasePath(start, inputs) && !cfg.useStepRuns && Now(start, inputs) <= closeAt
    requires iv in WholeRun(cfg, inputs, closeAt).finished
    ensures KeptOnly(iv) && Telescopes(iv, lane)
  {
    hide Run, CloseInterval, LaneOpen, LaneClosed, Telescopes, KeptOnly;
    var t := Run(cfg, INITIAL, inputs);
    RunTiled(cfg, start, inputs);
    FlushIsClose(cfg, inputs, closeAt);
    CloseTiled(t, FlushAt(t, closeAt), FlushResult(t), Now(start, inputs));
    ClosedTelescopes(iv, lane);
  }

  lemma ClosedTelescopes(iv: Interval, lane: Lane)
    requires KeptOnly(iv) && LaneClosed(iv, lane)
    ensures Telescopes(iv, lane)
  {
    hide FirstAt, Tiles, Total;
    TotalSplits(iv, iv.dwellLog, lane);
    if FirstAt(iv.events, lane).Some? {
      TilesTotal(LaneLog(iv, lane), FirstAt(iv.events, lane).value, iv.endedMS);
    }
  }
}
