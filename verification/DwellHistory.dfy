/** What a derived dwell stands for (cmd/projector/tracker.go): a stretch of events of a lane in one state and step. */
module DwellHistory {
  import opened Sorting
  import opened Source
  import opened Intervals
  import opened TrackerSpec
  import opened Frames
  import opened Dwells
  import opened Verdicts
  import ChildOrder

  function OfLane(lane: Lane): OutEvent -> bool {
    (e: OutEvent) => LaneForState(e.row.currentState) == lane
  }

  function LaneEvents(iv: Interval, lane: Lane): seq<OutEvent> {
    Filter(OfLane(lane), iv.events)
  }

  datatype Position = Position(state: string, step: Option<int>)

  /** Where an event puts its lane: in its state, at the step it leads to or else at the one it comes from. */
  function PositionOf(e: OutEvent): Position {
    Position(e.row.currentState, if e.row.stepTo.Some? then e.row.stepTo else e.row.stepFrom)
  }

  /** The k-th event moves its lane, or is the first. */
  predicate Moves(le: seq<OutEvent>, k: nat)
    requires k < |le|
  {
    k == 0 || PositionOf(le[k - 1]) != PositionOf(le[k])
  }

  /** How often the events move their lane. */
  function Stretches(le: seq<OutEvent>): nat {
    if le == [] then 0 else Stretches(Front(le)) + if Moves(le, |le| - 1) then 1 else 0
  }

  /** Events i to j - 1, and no others next to them, are at one position. */
  ghost predicate OnePosition(le: seq<OutEvent>, i: nat, j: nat)
    requires i < j <= |le|
  {
    && Moves(le, i) && (forall k | i <= k < j :: PositionOf(le[k]) == PositionOf(le[i]))
    && (j < |le| ==> PositionOf(le[j]) != PositionOf(le[i]))
  }

  /** The instant a stretch up to event j ends at. */
  function EndOf(le: seq<OutEvent>, j: nat, end: int): int
    requires j <= |le|
  {
    if j < |le| then le[j].eventAtMS else end
  }

  /** The events of a stretch, and the one that ends it. */
  function Counted(le: seq<OutEvent>, i: nat, j: nat): seq<OutEvent>
    requires i < j <= |le|
  {
    if j < |le| then le[i..j + 1] else le[i..]
  }

  predicate Counts(part: seq<OutEvent>, events: int, ioEvents: int, transitions: int) {
    && events == |part| && ioEvents == |Filter(OfEventKind("input_changed"), part)|
    && transitions == |Filter(OfEventKind("state_transition"), part)|
  }

  /** A dwell is the stretch from event i to event j. */
  ghost predicate IsStretch(d: OutDwell, le: seq<OutEvent>, i: nat, j: nat, end: int) {
    && i < j <= |le| && OnePosition(le, i, j)
    && Position(d.state, d.step) == PositionOf(le[i])
    && d.startedAtMS == le[i].eventAtMS && d.endedAtMS == EndOf(le, j, end)
    && d.seqIndex == Stretches(le[..i + 1]) - 1 && d.sourceKind == Derived
    && Counts(Counted(le, i, j), d.eventCount, d.ioEventCount, d.transitionCount)
  }

  ghost predicate HasStretch(log: seq<OutDwell>, le: seq<OutEvent>, i: nat, j: nat, end: int) {
    exists m :: 0 <= m < |log| && IsStretch(log[m], le, i, j, end)
  }

  ghost predicate IsSomeStretch(d: OutDwell, le: seq<OutEvent>, top: nat, end: int) {
    exists i: nat, j: nat :: j < top && IsStretch(d, le, i, j, end)
  }

  /** The dwells are the stretches that end before event `top` and have a length. */
  ghost predicate LogShown(log: seq<OutDwell>, le: seq<OutEvent>, top: nat, end: int) {
    && (forall m | 0 <= m < |log| :: IsSomeStretch(log[m], le, top, end))
    && forall i: nat, j: nat | i < j < top && j <= |le| && OnePosition(le, i, j)
                               && le[i].eventAtMS < EndOf(le, j, end) :: HasStretch(log, le, i, j, end)
  }

  // ---------------------------------------------------------------------------
  // The last stretch
  // ---------------------------------------------------------------------------

  /** Where the stretch of the last event began. */
  function LastMove(le: seq<OutEvent>): (i: nat)
    requires le != []
    ensures i < |le| && Moves(le, i) && forall k | i <= k < |le| :: PositionOf(le[k]) == PositionOf(le[i])
  {
    if Moves(le, |le| - 1) then |le| - 1
    else
      var i := LastMove(Front(le));
      assert Moves(Front(le), i) ==> Moves(le, i);
      assert forall k | i <= k < |le| - 1 :: PositionOf(Front(le)[k]) == PositionOf(le[k]);
      i
  }

  lemma {:induction false} NoMoveSince(le: seq<OutEvent>)
    requires le != []
    ensures Stretches(le) == Stretches(le[..LastMove(le) + 1])
  {
    if Moves(le, |le| - 1) {
      assert le[..|le|] == le;
    } else {
      NoMoveSince(Front(le));
      assert Front(le)[..LastMove(Front(le)) + 1] == le[..LastMove(le) + 1];
    }
  }

  /** Only the last stretch reaches the end. */
  lemma OnlyLast(le: seq<OutEvent>, i: nat)
    requires i < |le| && OnePosition(le, i, |le|)
    ensures i == LastMove(le)
  {
    hide LastMove;
    var m := LastMove(le);
  }

  // ---------------------------------------------------------------------------
  // One more event, one more dwell
  // ---------------------------------------------------------------------------

  lemma OnePositionMore(le: seq<OutEvent>, e: OutEvent, i: nat, j: nat)
    requires i < j < |le|
    ensures OnePosition(le + [e], i, j) <==> OnePosition(le, i, j)
  {
    var more := le + [e];
    assert forall k | 0 <= k < |le| :: more[k] == le[k];
  }

  lemma StretchMore(d: OutDwell, le: seq<OutEvent>, e: OutEvent, i: nat, j: nat, end: int, later: int)
    requires j < |le|
    ensures IsStretch(d, le + [e], i, j, later) <==> IsStretch(d, le, i, j, end)
  {
    hide OnePosition, PositionOf, Stretches, Counts;
    if i < j {
      OnePositionMore(le, e, i, j);
      assert (le + [e])[..i + 1] == le[..i + 1] && (le + [e])[i..j + 1] == le[i..j + 1];
    }
  }

  lemma LogMore(log: seq<OutDwell>, le: seq<OutEvent>, e: OutEvent, end: int, later: int)
    requires LogShown(log, le, |le|, end)
    ensures LogShown(log, le + [e], |le|, later)
  {
    hide OnePosition, IsStretch;
    var more := le + [e];
    forall m | 0 <= m < |log| ensures IsSomeStretch(log[m], more, |le|, later) {
      var i: nat, j: nat :| j < |le| && IsStretch(log[m], le, i, j, end);
      StretchMore(log[m], le, e, i, j, end, later);
    }
    forall i: nat, j: nat | i < j < |le| && OnePosition(more, i, j) && more[i].eventAtMS < EndOf(more, j, later)
      ensures HasStretch(log, more, i, j, later)
    {
      OnePositionMore(le, e, i, j);
      assert HasStretch(log, le, i, j, end);
      var m :| 0 <= m < |log| && IsStretch(log[m], le, i, j, end);
      StretchMore(log[m], le, e, i, j, end, later);
    }
  }

  lemma HasMore(log: seq<OutDwell>, d: OutDwell, le: seq<OutEvent>, i: nat, j: nat, end: int)
    ensures HasStretch(log, le, i, j, end) ==> HasStretch(log + [d], le, i, j, end)
    ensures IsStretch(d, le, i, j, end) ==> HasStretch(log + [d], le, i, j, end)
  {
    hide IsStretch;
    var more := log + [d];
    assert more[|log|] == d && forall k | 0 <= k < |log| :: more[k] == log[k];
  }

  /** The next stretch gets its dwell, unless it has no length. */
  lemma AddStretch(log: seq<OutDwell>, le: seq<OutEvent>, i: nat, j: nat, end: int, d: OutDwell)
    requires j <= |le| && LogShown(log, le, j, end) && IsStretch(d, le, i, j, end)
    requires forall k: nat | k < j && OnePosition(le, k, j) :: k == i
    ensures LogShown(if d.startedAtMS < d.endedAtMS then log + [d] else log, le, j + 1, end)
  {
    var more := if d.startedAtMS < d.endedAtMS then log + [d] else log;
    assert le[i].eventAtMS == d.startedAtMS && EndOf(le, j, end) == d.endedAtMS;
    hide OnePosition, IsStretch;
    forall m | 0 <= m < |more| ensures IsSomeStretch(more[m], le, j + 1, end) {
      if m < |log| {
        assert IsSomeStretch(log[m], le, j, end);
      }
    }
    forall a: nat, b: nat | a < b < j + 1 && b <= |le| && OnePosition(le, a, b)
                            && le[a].eventAtMS < EndOf(le, b, end)
      ensures HasStretch(more, le, a, b, end)
    {
      HasMore(log, d, le, a, b, end);
    }
  }

  // ---------------------------------------------------------------------------
  // The open dwell
  // ---------------------------------------------------------------------------

  ghost predicate IsOpen(d: OpenDwell, le: seq<OutEvent>) {
    && le != []
    && var i := LastMove(le);
    && Position(d.state, d.step) == PositionOf(le[i]) && d.startedMS == le[i].eventAtMS
    && d.seqIndex == Stretches(le) - 1 && Counts(le[i..], d.events, d.ioEvents, d.transitions)
  }

  /** One lane of the open interval. */
  ghost predicate LaneShown(t: State, lane: Lane)
    requires t.current.Some?
  {
    var le, log := LaneEvents(t.current.value, lane), LaneLog(t.current.value, lane);
    && (lane in t.openDwells <==> le != [])
    && (lane in t.openDwells ==> IsOpen(t.openDwells[lane], le))
    && NextSeq(t, lane) == Stretches(le) && LogShown(log, le, |le|, 0)
  }

  ghost predicate LaneFinal(iv: Interval, lane: Lane) {
    var le := LaneEvents(iv, lane);
    LogShown(LaneLog(iv, lane), le, |le| + 1, iv.endedMS)
  }

  lemma CountsMore(part: seq<OutEvent>, e: OutEvent, d: OpenDwell)
    requires Counts(part, d.events, d.ioEvents, d.transitions)
    ensures var c := CountEvent(d, e.row); Counts(part + [e], c.events, c.ioEvents, c.transitions)
  {
    FilterSnoc(OfEventKind("input_changed"), part, e);
    FilterSnoc(OfEventKind("state_transition"), part, e);
  }

  /** An event that moves the lane ends its last stretch. */
  lemma EndsStretch(le: seq<OutEvent>, e: OutEvent)
    requires le != [] && PositionOf(e) != PositionOf(le[LastMove(le)])
    ensures OnePosition(le + [e], LastMove(le), |le|)
  {
    hide PositionOf, LastMove;
    var more := le + [e];
    assert more[|le|] == e && forall k | 0 <= k < |le| :: more[k] == le[k];
  }

  lemma PartsOf(le: seq<OutEvent>, e: OutEvent, i: nat)
    requires i < |le|
    ensures var more := le + [e];
            && more[..i + 1] == le[..i + 1] && Counted(more, i, |le|) == le[i..] + [e]
            && more[i] == le[i] && EndOf(more, |le|, 0) == e.eventAtMS
  {
  }

  /** The open dwell, closed by an event that moves the lane. */
  lemma ClosedByEvent(d: OpenDwell, le: seq<OutEvent>, e: OutEvent, lane: Lane, orderKey: string)
    requires IsOpen(d, le) && PositionOf(e) != Position(d.state, d.step)
    ensures IsStretch(DwellRow(CountEvent(d, e.row), lane, orderKey, e.eventAtMS), le + [e], LastMove(le), |le|, 0)
  {
    hide Counts, Stretches, LastMove, PositionOf, OnePosition, Counted, EndOf, CountEvent, IsStretch;
    var i, c := LastMove(le), CountEvent(d, e.row);
    NoMoveSince(le);
    CountsMore(le[i..], e, d);
    PartsOf(le, e, i);
    EndsStretch(le, e);
    CountKeepsPlace(d, e.row);
    StretchOf(c, lane, orderKey, le + [e], i, |le|, 0);
  }

  /** A dwell row with the place and the counts of a stretch is that stretch. */
  lemma StretchOf(d: OpenDwell, lane: Lane, orderKey: string, le: seq<OutEvent>, i: nat, j: nat, end: int)
    requires i < j <= |le| && OnePosition(le, i, j) && Position(d.state, d.step) == PositionOf(le[i])
    requires d.startedMS == le[i].eventAtMS && d.seqIndex == Stretches(le[..i + 1]) - 1
    requires Counts(Counted(le, i, j), d.events, d.ioEvents, d.transitions)
    ensures IsStretch(DwellRow(d, lane, orderKey, EndOf(le, j, end)), le, i, j, end)
  {
    hide Counts, Stretches, PositionOf, OnePosition, Counted, EndOf;
  }

  /** The open dwell, closed with its interval. */
  lemma ClosedAtEnd(d: OpenDwell, le: seq<OutEvent>, lane: Lane, orderKey: string, atMS: int)
    requires IsOpen(d, le)
    ensures IsStretch(DwellRow(d, lane, orderKey, atMS), le, LastMove(le), |le|, atMS)
  {
    hide Counts, Stretches, LastMove, PositionOf;
    NoMoveSince(le);
    assert OnePosition(le, LastMove(le), |le|);
  }

  lemma StaysAt(d: OpenDwell, le: seq<OutEvent>, e: OutEvent)
    requires IsOpen(d, le) && PositionOf(e) == Position(d.state, d.step)
    ensures IsOpen(CountEvent(d, e.row), le + [e]) && Stretches(le + [e]) == Stretches(le)
  {
    hide Counts;
    var i, more := LastMove(le), le + [e];
    assert Front(more) == le && more[|le|] == e;
    assert !Moves(more, |le|);
    CountsMore(le[i..], e, d);
    assert more[i..] == le[i..] + [e];
  }

  lemma MovesTo(le: seq<OutEvent>, e: OutEvent)
    requires le != [] ==> PositionOf(e) != PositionOf(Last(le))
    ensures Stretches(le + [e]) == Stretches(le) + 1 && LastMove(le + [e]) == |le|
  {
    hide PositionOf;
    var more := le + [e];
    assert Front(more) == le && more[|le|] == e;
    assert le != [] ==> more[|le| - 1] == Last(le);
    assert Moves(more, |more| - 1);
  }

  lemma NewDwell(le: seq<OutEvent>, e: OutEvent, d: OpenDwell)
    requires le != [] ==> PositionOf(e) != PositionOf(Last(le))
    requires d == CountEvent(OpenDwell(e.row.currentState, PositionOf(e).step, e.eventAtMS, Stretches(le), 0, 0, 0, 0),
                             e.row)
    ensures IsOpen(d, le + [e])
  {
    hide Counts, Stretches;
    MovesTo(le, e);
    var none := OpenDwell(e.row.currentState, PositionOf(e).step, e.eventAtMS, Stretches(le), 0, 0, 0, 0);
    assert Counts([], none.events, none.ioEvents, none.transitions) by { NothingCounted(); }
    CountsMore([], e, none);
    assert (le + [e])[|le|..] == [] + [e];
  }

  lemma NothingCounted()
    ensures Counts([], 0, 0, 0)
  {
  }

  // ---------------------------------------------------------------------------
  // The tracker's operations
  // ---------------------------------------------------------------------------

  /** What closing a lane's dwell adds to the log. */
  function ClosedRow(t: State, lane: Lane, atMS: int): seq<OutDwell>
    requires t.current.Some?
  {
    if lane in t.openDwells && t.openDwells[lane].startedMS < atMS
    then [DwellRow(t.openDwells[lane], lane, t.current.value.orderKey, atMS)] else []
  }

  lemma CloseDwellLog(t: State, lane: Lane, atMS: int, other: Lane)
    requires t.current.Some?
    ensures var r := CloseDwell(t, lane, atMS);
            && LaneLog(r.current.value, other)
               == LaneLog(t.current.value, other) + (if other == lane then ClosedRow(t, lane, atMS) else [])
            && r.current.value.events == t.current.value.events && r.current.value.orderKey == t.current.value.orderKey
            && (other != lane ==> ClosedRow(r, other, atMS) == ClosedRow(t, other, atMS))
  {
    hide Filter;
    var iv := t.current.value;
    if ClosedRow(t, lane, atMS) != [] {
      FilterSnoc(InLane(other), iv.dwellLog, ClosedRow(t, lane, atMS)[0]);
    }
  }

  /** Closing all dwells adds to each lane's log what closing its own dwell adds. */
  lemma CloseDwellsLog(t: State, atMS: int, lane: Lane)
    requires t.current.Some?
    ensures var r := CloseOpenDwells(t, atMS);
            && LaneLog(r.current.value, lane) == LaneLog(t.current.value, lane) + ClosedRow(t, lane, atMS)
            && r.current.value.events == t.current.value.events
  {
    hide CloseDwell, LaneLog, ClosedRow;
    var t1 := CloseDwell(t, Crusher, atMS);
    var t2 := CloseDwell(t1, Main, atMS);
    CloseDwellLog(t, Crusher, atMS, lane);
    CloseDwellLog(t1, Main, atMS, lane);
    CloseDwellLog(t2, Tilter, atMS, lane);
    match lane { case Crusher => case Main => case Tilter => }
  }

  lemma NoneEndsHere(log: seq<OutDwell>, le: seq<OutEvent>, n: nat, end: int)
    requires LogShown(log, le, n, end) && forall k: nat | k < n <= |le| :: !OnePosition(le, k, n)
    ensures LogShown(log, le, n + 1, end)
  {
    hide OnePosition, IsStretch;
    forall m | 0 <= m < |log| ensures IsSomeStretch(log[m], le, n + 1, end) {
      assert IsSomeStretch(log[m], le, n, end);
    }
  }

  lemma LastStretchOf(le: seq<OutEvent>, e: OutEvent, k: nat)
    requires k < |le| && OnePosition(le + [e], k, |le|)
    ensures k == LastMove(le)
  {
    hide LastMove;
    var more := le + [e];
    assert forall m | 0 <= m < |le| :: more[m] == le[m];
    OnlyLast(le, k);
  }

  lemma LaneEventsMore(a: Interval, b: Interval, e: OutEvent, lane: Lane)
    requires b.events == a.events + [e]
    ensures LaneEvents(b, lane) == LaneEvents(a, lane) + if OfLane(lane)(e) then [e] else []
  {
    hide Filter;
    FilterSnoc(OfLane(lane), a.events, e);
  }

  /** The state after an event was counted in the open dwell of its lane. */
  function CountedIn(t: State, e: FsmEvent): State
    requires LaneForState(e.currentState) in t.openDwells
  {
    var lane := LaneForState(e.currentState);
    t.(openDwells := t.openDwells[lane := CountEvent(t.openDwells[lane], e)])
  }

  lemma OwnLaneShown(t: State, e: FsmEvent, atMS: int)
    requires t.current.Some? && LaneShown(t, LaneForState(e.currentState))
    ensures LaneShown(AddEvent(TrackDwell(t, e, atMS), e, atMS), LaneForState(e.currentState))
  {
    hide LogShown, IsOpen, Stretches, LaneEvents, LaneLog, TrackDwell, LastMove, OnePosition;
    var lane := LaneForState(e.currentState);
    var out := OutEvent(atMS, t.current.value.orderKey, e);
    var le, log := LaneEvents(t.current.value, lane), LaneLog(t.current.value, lane);
    var t3 := TrackDwell(t, e, atMS);
    var r := AddEvent(t3, e, atMS);
    assert t3.current.value.events == t.current.value.events && t3.current.value.orderKey == t.current.value.orderKey;
    LaneEventsMore(t.current.value, r.current.value, out, lane);
    SameLog(t3, r, lane);
    LogMore(log, le, out, 0, 0);
    if lane in t.openDwells {
      if PositionOf(out) == Position(t.openDwells[lane].state, t.openDwells[lane].step) {
        StaysShown(t, e, atMS, le, log, out);
      } else {
        MovesShown(t, e, atMS, le, log, out);
      }
    } else {
      FirstShown(t, e, atMS);
      NoneEndsHere(log, le + [out], |le|, 0);
      MovesTo(le, out);
      NewDwell(le, out, r.openDwells[lane]);
    }
  }

  lemma FirstShown(t: State, e: FsmEvent, atMS: int)
    requires t.current.Some? && LaneForState(e.currentState) !in t.openDwells
    ensures var lane := LaneForState(e.currentState);
            var r := TrackDwell(t, e, atMS);
            && lane in r.openDwells && r.current == t.current && NextSeq(r, lane) == NextSeq(t, lane) + 1
            && r.openDwells[lane] == StartedBy(e, atMS, NextSeq(t, lane))
  {
  }

  /** The dwell an event starts. */
  function StartedBy(e: FsmEvent, atMS: int, seqIndex: int): OpenDwell {
    var step := if e.stepTo.Some? then e.stepTo else e.stepFrom;
    CountEvent(OpenDwell(e.currentState, step, atMS, seqIndex, 0, 0, 0, 0), e)
  }

  lemma StaysShown(t: State, e: FsmEvent, atMS: int, le: seq<OutEvent>, log: seq<OutDwell>, out: OutEvent)
    requires LaneForState(e.currentState) in t.openDwells && t.current.Some? && out.row == e
    requires var d := t.openDwells[LaneForState(e.currentState)];
             IsOpen(d, le) && PositionOf(out) == Position(d.state, d.step)
    requires LogShown(log, le + [out], |le|, 0)
    ensures var d := t.openDwells[LaneForState(e.currentState)];
            && TrackDwell(t, e, atMS) == CountedIn(t, e) && Stretches(le + [out]) == Stretches(le)
            && IsOpen(CountEvent(d, e), le + [out]) && LogShown(log, le + [out], |le| + 1, 0)
  {
    hide LogShown, IsOpen, Stretches, LastMove, OnePosition;
    var d := t.openDwells[LaneForState(e.currentState)];
    StaysAt(d, le, out);
    StaysInPlace(d, le, out);
    NoneEndsHere(log, le + [out], |le|, 0);
  }

  lemma MovesShown(t: State, e: FsmEvent, atMS: int, le: seq<OutEvent>, log: seq<OutDwell>, out: OutEvent)
    requires LaneForState(e.currentState) in t.openDwells && t.current.Some?
    requires out.row == e && out.eventAtMS == atMS
    requires var d := t.openDwells[LaneForState(e.currentState)];
             IsOpen(d, le) && PositionOf(out) != Position(d.state, d.step)
    requires LogShown(log, le + [out], |le|, 0) && log == LaneLog(t.current.value, LaneForState(e.currentState))
    requires NextSeq(t, LaneForState(e.currentState)) == Stretches(le)
    ensures var lane := LaneForState(e.currentState);
            var r := TrackDwell(t, e, atMS);
            && lane in r.openDwells && IsOpen(r.openDwells[lane], le + [out])
            && NextSeq(r, lane) == Stretches(le + [out])
            && LogShown(LaneLog(r.current.value, lane), le + [out], |le| + 1, 0)
  {
    hide LogShown, IsOpen, Stretches, LaneLog, LastMove, OnePosition, CloseDwell, CountEvent, IsStretch;
    var lane := LaneForState(e.currentState);
    var d, t1, r := t.openDwells[lane], CountedIn(t, e), TrackDwell(t, e, atMS);
    ClosedByEvent(d, le, out, lane, t.current.value.orderKey);
    forall k: nat | k < |le| && OnePosition(le + [out], k, |le|) ensures k == LastMove(le) {
      LastStretchOf(le, out, k);
    }
    var row := DwellRow(CountEvent(d, e), lane, t.current.value.orderKey, atMS);
    AddStretch(log, le + [out], LastMove(le), |le|, 0, row);
    CountKeepsPlace(d, e);
    CloseDwellLog(t1, lane, atMS, lane);
    SameLog(CloseDwell(t1, lane, atMS), r, lane);
    assert log + [] == log;
    AtLastPosition(d, le);
    MovesTo(le, out);
    NewDwell(le, out, r.openDwells[lane]);
  }

  lemma CountKeepsPlace(d: OpenDwell, e: FsmEvent)
    ensures var c := CountEvent(d, e);
            c.state == d.state && c.step == d.step && c.startedMS == d.startedMS && c.seqIndex == d.seqIndex
  {
  }

  lemma AtLastPosition(d: OpenDwell, le: seq<OutEvent>)
    requires IsOpen(d, le)
    ensures PositionOf(Last(le)) == Position(d.state, d.step)
  {
    hide LastMove, Counts, Stretches;
  }

  lemma StaysInPlace(d: OpenDwell, le: seq<OutEvent>, e: OutEvent)
    requires IsOpen(d, le) && PositionOf(e) == Position(d.state, d.step)
    ensures forall k: nat | k < |le| :: !OnePosition(le + [e], k, |le|)
  {
    hide LastMove, Counts, Stretches;
    var more := le + [e];
    assert more[|le|] == e && more[|le| - 1] == Last(le);
    assert PositionOf(more[|le| - 1]) == PositionOf(more[|le|]);
  }

  lemma SameLog(t: State, r: State, lane: Lane)
    requires t.current.Some? && r.current.Some? && r.current.value.dwellLog == t.current.value.dwellLog
    ensures LaneLog(r.current.value, lane) == LaneLog(t.current.value, lane)
  {
  }

  /** What a lane's invariant looks at. */
  ghost predicate SameStretches(t: State, r: State, lane: Lane)
    requires t.current.Some? && r.current.Some?
  {
    && LaneEvents(r.current.value, lane) == LaneEvents(t.current.value, lane)
    && LaneLog(r.current.value, lane) == LaneLog(t.current.value, lane)
    && NextSeq(r, lane) == NextSeq(t, lane) && (lane in r.openDwells <==> lane in t.openDwells)
    && (lane in r.openDwells ==> r.openDwells[lane] == t.openDwells[lane].(faults := r.openDwells[lane].faults))
  }

  lemma SameShown(t: State, r: State, lane: Lane)
    requires t.current.Some? && r.current.Some? && LaneShown(t, lane) && SameStretches(t, r, lane)
    ensures LaneShown(r, lane)
  {
    hide LogShown, LaneEvents, LaneLog, LastMove, Counts, Stretches;
  }

  lemma OtherLaneShown(t: State, e: FsmEvent, atMS: int, lane: Lane)
    requires t.current.Some? && lane != LaneForState(e.currentState) && LaneShown(t, lane)
    ensures LaneShown(AddEvent(TrackDwell(t, e, atMS), e, atMS), lane)
  {
    hide LaneShown, LaneEvents, LaneLog, CloseDwell, CountEvent;
    var own := LaneForState(e.currentState);
    var t1 := if own in t.openDwells then CountedIn(t, e) else t;
    var r := AddEvent(TrackDwell(t, e, atMS), e, atMS);
    CloseDwellLog(t1, own, atMS, lane);
    SameLog(TrackDwell(t, e, atMS), r, lane);
    LaneEventsMore(t.current.value, r.current.value, OutEvent(atMS, t.current.value.orderKey, e), lane);
    assert LaneLog(t.current.value, lane) + [] == LaneLog(t.current.value, lane);
    assert LaneEvents(t.current.value, lane) + [] == LaneEvents(t.current.value, lane);
    SameShown(t, r, lane);
  }

  lemma EventShown(cfg: Settings, t: State, e: FsmEvent, atMS: int, lane: Lane)
    requires t.current.Some? && !cfg.useStepRuns && LaneShown(t, lane)
    ensures LaneShown(RecordEvent(cfg, t, e, atMS), lane)
  {
    hide LaneShown, TrackDwell, TrackStateSpan, Filter;
    var t2 := BeforeDwell(t, e, atMS);
    SameShown(t, t2, lane);
    if lane == LaneForState(e.currentState) {
      OwnLaneShown(t2, e, atMS);
    } else {
      OtherLaneShown(t2, e, atMS, lane);
    }
  }

  lemma FaultKeepsStretches(cfg: Settings, t: State, f: Fault, atMS: int, lane: Lane)
    requires t.current.Some?
    ensures SameStretches(t, RecordFault(cfg, t, f, atMS), lane)
  {
    hide LedgerFaultKey, RecordLedgerFault, Filter;
  }

  lemma OthersKeepStretches(cfg: Settings, t: State, i: Input, lane: Lane)
    requires t.current.Some? && !IsStepRun(i) && !(i.Apply? && i.row.EventRow?)
    ensures SameStretches(t, Record(cfg, t, i), lane)
  {
    hide RecordFault, ApplyDoorSignals, Filter;
    if i.Apply? && i.row.FaultRow? {
      FaultKeepsStretches(cfg, t, i.row.fault, AtMS(i), lane);
    }
  }

  ghost predicate DwellsShown(t: State) {
    && (t.current.Some? ==> forall lane :: LaneShown(t, lane))
    && (t.current.None? ==> t.openDwells == map[])
    && forall k, lane | 0 <= k < |t.finished| :: LaneFinal(t.finished[k], lane)
  }

  lemma RecordShown(cfg: Settings, t: State, i: Input)
    requires t.current.Some? && DwellsShown(t) && !IsStepRun(i) && !cfg.useStepRuns
    ensures DwellsShown(Record(cfg, t, i))
  {
    hide LaneShown, LaneFinal, RecordEvent, Record, SameStretches;
    var r := Record(cfg, t, i);
    forall lane ensures LaneShown(r, lane) {
      if i.Apply? && i.row.EventRow? {
        EventShown(cfg, t, i.row.event, AtMS(i), lane);
        RecordsEvent(cfg, t, i, i.row.event);
      } else {
        OthersKeepStretches(cfg, t, i, lane);
        SameShown(t, r, lane);
      }
    }
  }

  lemma RecordsEvent(cfg: Settings, t: State, i: Input, e: FsmEvent)
    requires t.current.Some? && i == Apply(EventRow(e))
    ensures Record(cfg, t, i) == RecordEvent(cfg, t, e, AtMS(i))
  {
    hide RecordEvent;
  }

  /** Stretches that end before the last event do not depend on the end of the interval. */
  lemma AnyEnd(log: seq<OutDwell>, le: seq<OutEvent>, end: int, other: int)
    requires LogShown(log, le, |le|, end)
    ensures LogShown(log, le, |le|, other)
  {
    hide OnePosition, Counts, Stretches, PositionOf;
    forall m | 0 <= m < |log| ensures IsSomeStretch(log[m], le, |le|, other) {
      var i: nat, j: nat :| j < |le| && IsStretch(log[m], le, i, j, end);
      assert IsStretch(log[m], le, i, j, other);
    }
    forall i: nat, j: nat | i < j < |le| && OnePosition(le, i, j) && le[i].eventAtMS < EndOf(le, j, other)
      ensures HasStretch(log, le, i, j, other)
    {
      assert HasStretch(log, le, i, j, end);
      var m :| 0 <= m < |log| && IsStretch(log[m], le, i, j, end);
      assert IsStretch(log[m], le, i, j, other);
    }
  }

  lemma LaneEnds(t: State, lane: Lane, atMS: int)
    requires t.current.Some? && LaneShown(t, lane)
    ensures var le := LaneEvents(t.current.value, lane);
            LogShown(LaneLog(t.current.value, lane) + ClosedRow(t, lane, atMS), le, |le| + 1, atMS)
  {
    hide LogShown, Counts, Stretches, LaneEvents, LaneLog, LastMove, OnePosition, IsStretch;
    var le, log := LaneEvents(t.current.value, lane), LaneLog(t.current.value, lane);
    AnyEnd(log, le, 0, atMS);
    assert log + [] == log;
    if lane in t.openDwells {
      ClosedAtEnd(t.openDwells[lane], le, lane, t.current.value.orderKey, atMS);
      forall k: nat | k < |le| && OnePosition(le, k, |le|) ensures k == LastMove(le) {
        OnlyLast(le, k);
      }
      AddStretch(log, le, LastMove(le), |le|, atMS,
                 DwellRow(t.openDwells[lane], lane, t.current.value.orderKey, atMS));
    } else {
      NoneEndsHere(log, le, 0, atMS);
    }
  }

  lemma ClosedLane(t: State, atMS: int, forced: Option<Result>, lane: Lane)
    requires t.current.Some? && LaneShown(t, lane)
    ensures var c := CloseInterval(t, atMS, forced); c.finished != [] && LaneFinal(Last(c.finished), lane)
  {
    hide LogShown, LaneShown, CloseOpenDwells, CloseStateSpan, Filter, ClosedRow;
    CloseDwellsLog(t, atMS, lane);
    LaneEnds(t, lane, atMS);
    var iv := Last(CloseInterval(t, atMS, forced).finished);
    var mid := CloseOpenDwells(t, atMS).current.value;
    assert iv.events == mid.events && iv.dwellLog == mid.dwellLog && iv.endedMS == atMS;
    assert LaneEvents(iv, lane) == LaneEvents(t.current.value, lane) && LaneLog(iv, lane) == LaneLog(mid, lane);
  }

  lemma CloseShown(t: State, atMS: int, forced: Option<Result>)
    requires DwellsShown(t)
    ensures DwellsShown(CloseInterval(t, atMS, forced))
  {
    hide CloseInterval, LaneShown, LaneFinal, SameRows, SameTally;
    CloseFrame(t, atMS, forced);
    if t.current.Some? {
      var c := CloseInterval(t, atMS, forced);
      assert c.finished == t.finished + [Last(c.finished)];
      forall lane ensures LaneFinal(Last(c.finished), lane) {
        ClosedLane(t, atMS, forced, lane);
      }
    }
  }

  lemma FreshShown(t: State, orderKey: string, state: string, atMS: int)
    requires DwellsShown(t) && t.current.None?
    ensures DwellsShown(Fresh(t, orderKey, state, atMS))
  {
    hide SynthKey, LaneFinal;
  }

  lemma OpenShown(cfg: Settings, t: State, i: Input)
    requires DwellsShown(t)
    ensures DwellsShown(Opened(cfg, t, i))
  {
    hide CloseInterval, EnsureInterval, Fresh, DwellsShown;
    var at := OpenAtMS(i);
    EnsureShape(cfg, t, KeyOf(i), StateOf(t, i), at);
    var forced := if Overdue(cfg, t, at) then Some(ForcedResult(t.current.value)) else None;
    CloseShown(t, at, forced);
    CloseFrame(t, at, forced);
    if Opened(cfg, t, i) != t {
      FreshShown(CloseInterval(t, at, forced), KeyOf(i), StateOf(t, i), at);
    }
  }

  lemma StepShown(cfg: Settings, t: State, i: Input)
    requires DwellsShown(t) && !IsStepRun(i) && !cfg.useStepRuns
    ensures DwellsShown(Step(cfg, t, i))
  {
    hide CloseInterval, Opened, Record, VerdictOf, DwellsShown;
    OpenShown(cfg, t, i);
    var t1 := Opened(cfg, t, i);
    RecordShown(cfg, t1, i);
    CloseShown(Record(cfg, t1, i), AtMS(i), VerdictOf(cfg, t1, i));
  }

  lemma {:induction false} RunShown(cfg: Settings, inputs: seq<Input>)
    requires !cfg.useStepRuns && forall k | 0 <= k < |inputs| :: !IsStepRun(inputs[k])
    ensures DwellsShown(Run(cfg, INITIAL, inputs))
  {
    hide Step, LaneShown, LaneFinal;
    if inputs != [] {
      RunShown(cfg, Front(inputs));
      assert !IsStepRun(Last(inputs));
      StepShown(cfg, Run(cfg, INITIAL, Front(inputs)), Last(inputs));
    }
  }

  // ---------------------------------------------------------------------------
  // Main results
  // ---------------------------------------------------------------------------

  /** Without step runs the dwells of a lane are exactly its stretches of events at one position that have a length:
      each with its numbers of events, its place among the stretches, and the instants it leads from and to. */
  lemma DwellsAreStretches(cfg: Settings, inputs: seq<Input>, closeAt: int, iv: Interval, lane: Lane)
    requires !cfg.useStepRuns && forall k | 0 <= k < |inputs| :: !IsStepRun(inputs[k])
    requires iv in WholeRun(cfg, inputs, closeAt).finished
    ensures var le := LaneEvents(iv, lane); LogShown(LaneLog(iv, lane), le, |le| + 1, iv.endedMS)
  {
    hide Run, CloseInterval, LaneShown, LogShown;
    var t := Run(cfg, INITIAL, inputs);
    RunShown(cfg, inputs);
    FlushIsClose(cfg, inputs, closeAt);
    CloseShown(t, FlushAt(t, closeAt), FlushResult(t));
    assert LaneFinal(iv, lane);
  }

  predicate NotLater(a: OutEvent, b: OutEvent) {
    a.eventAtMS <= b.eventAtMS
  }

  lemma EventsOrdered(cfg: Settings, start: int, inputs: seq<Input>, closeAt: int, iv: Interval, lane: Lane)
    requires BasePath(start, inputs) && Now(start, inputs) <= closeAt
    requires iv in WholeRun(cfg, inputs, closeAt).finished
    ensures SortedBy(NotLater, LaneEvents(iv, lane))
  {
    hide WholeRun, ChildOrder.WithinCap, BasePath;
    ChildOrder.RowsWithinInterval(cfg, start, inputs, closeAt, iv);
    var stamps := ChildOrder.Stamps(ChildOrder.Events, iv);
    assert ChildOrder.InOrder(stamps, iv.startedMS, iv.endedMS);
    assert forall k | 0 <= k < |iv.events| :: stamps[k] == iv.events[k].eventAtMS;
    FilterSorted(NotLater, OfLane(lane), iv.events);
  }

  /** An event tells the state and the step of a dwell. */
  predicate Tells(e: OutEvent, d: OutDwell) {
    e.row.currentState == d.state && d.step == if e.row.stepTo.Some? then e.row.stepTo else e.row.stepFrom
  }

  /** Where an instant inside a stretch lies in the order of events. */
  lemma PlaceInside(le: seq<OutEvent>, i: nat, j: nat, end: int, k: nat)
    requires SortedBy(NotLater, le) && i < j <= |le| && k < |le|
    requires le[i].eventAtMS <= le[k].eventAtMS < EndOf(le, j, end)
    requires le[i].eventAtMS < le[k].eventAtMS || k + 1 == |le| || le[k].eventAtMS < le[k + 1].eventAtMS
    ensures i <= k < j
  {
    assert k < i ==> NotLater(le[k], le[i]);
    assert k + 1 < i ==> NotLater(le[k + 1], le[i]);
    assert j < k ==> NotLater(le[j], le[k]);
  }

  lemma InsideStretch(le: seq<OutEvent>, d: OutDwell, end: int, k: nat)
    requires SortedBy(NotLater, le) && IsSomeStretch(d, le, |le| + 1, end) && k < |le|
    requires d.startedAtMS <= le[k].eventAtMS < d.endedAtMS
    requires d.startedAtMS < le[k].eventAtMS || k + 1 == |le| || le[k].eventAtMS < le[k + 1].eventAtMS
    ensures Tells(le[k], d)
  {
    hide Counts, Stretches, Counted, SortedBy, Moves;
    var i: nat, j: nat :| j < |le| + 1 && IsStretch(d, le, i, j, end);
    PlaceInside(le, i, j, end, k);
    assert PositionOf(le[k]) == PositionOf(le[i]);
  }

  /** On the base path every event of a lane inside a derived dwell, and the last one at its start, tells the dwell's
      state and step. */
  lemma DwellsAgreeWithEvents(cfg: Settings, start: int, inputs: seq<Input>, closeAt: int, iv: Interval, lane: Lane,
                              d: OutDwell, k: nat)
    requires BasePath(start, inputs) && !cfg.useStepRuns && Now(start, inputs) <= closeAt
    requires iv in WholeRun(cfg, inputs, closeAt).finished && d in LaneLog(iv, lane)
    requires var le := LaneEvents(iv, lane);
             && k < |le| && d.startedAtMS <= le[k].eventAtMS < d.endedAtMS
             && (d.startedAtMS == le[k].eventAtMS && k + 1 < |le| ==> le[k].eventAtMS < le[k + 1].eventAtMS)
    ensures Tells(LaneEvents(iv, lane)[k], d)
  {
    hide WholeRun, BasePath, LogShown, OnePosition, IsStretch, Filter, SortedBy;
    EventsOrdered(cfg, start, inputs, closeAt, iv, lane);
    NoStepRuns(start, inputs);
    DwellsAreStretches(cfg, inputs, closeAt, iv, lane);
    StretchAt(LaneLog(iv, lane), LaneEvents(iv, lane), iv.endedMS, d);
    InsideStretch(LaneEvents(iv, lane), d, iv.endedMS, k);
  }

  /** A dwell is in the lane its state names, and it is kept unless the machine stands idle outside production. */
  lemma DwellsKept(cfg: Settings, start: int, inputs: seq<Input>, closeAt: int, iv: Interval, d: OutDwell)
    requires BasePath(start, inputs) && !cfg.useStepRuns && Now(start, inputs) <= closeAt
    requires iv in WholeRun(cfg, inputs, closeAt).finished && d in iv.dwellLog
    ensures d in iv.stepDwells <==> iv.isProduction || d.state != "HomeIdle"
    ensures (d.lane == Tilter <==> d.state == "Tilter") && (d.lane == Crusher <==> d.state == "Crusher")
  {
    hide WholeRun, BasePath, LogShown, OnePosition, FirstAt, Total, Suppressed, Filter, Counts, Stretches, Counted;
    NoStepRuns(start, inputs);
    DwellsAreStretches(cfg, inputs, closeAt, iv, d.lane);
    DwellsTelescope(cfg, start, inputs, closeAt, iv, d.lane);
    FilterMembers(InLane(d.lane), iv.dwellLog);
    FilterMembers(IsKept(iv.isProduction), iv.dwellLog);
    var le := LaneEvents(iv, d.lane);
    StretchAt(LaneLog(iv, d.lane), le, iv.endedMS, d);
    var i: nat, j: nat :| j < |le| + 1 && IsStretch(d, le, i, j, iv.endedMS);
    FilterMembers(OfLane(d.lane), iv.events);
    assert le[i] in le;
  }

  lemma NoStepRuns(start: int, inputs: seq<Input>)
    requires BasePath(start, inputs)
    ensures forall k | 0 <= k < |inputs| :: !IsStepRun(inputs[k])
  {
  }

  lemma StretchAt(log: seq<OutDwell>, le: seq<OutEvent>, end: int, d: OutDwell)
    requires LogShown(log, le, |le| + 1, end) && d in log
    ensures IsSomeStretch(d, le, |le| + 1, end)
  {
    hide IsStretch, OnePosition;
  }

  /** Where two consecutive events of a lane tell different states or steps, at different instants, a dwell ends at the
      second. */
  lemma DwellsEndAtMoves(cfg: Settings, start: int, inputs: seq<Input>, closeAt: int, iv: Interval, lane: Lane, k: nat)
    requires BasePath(start, inputs) && !cfg.useStepRuns && Now(start, inputs) <= closeAt
    requires iv in WholeRun(cfg, inputs, closeAt).finished
    requires var le := LaneEvents(iv, lane);
             && k + 1 < |le| && le[k].eventAtMS < le[k + 1].eventAtMS
             && (le[k].row.currentState != le[k + 1].row.currentState
                 || (if le[k].row.stepTo.Some? then le[k].row.stepTo else le[k].row.stepFrom)
                    != (if le[k + 1].row.stepTo.Some? then le[k + 1].row.stepTo else le[k + 1].row.stepFrom))
    ensures exists d :: d in iv.dwellLog && d.lane == lane && d.endedAtMS == LaneEvents(iv, lane)[k + 1].eventAtMS
                        && Tells(LaneEvents(iv, lane)[k], d)
  {
    hide WholeRun, BasePath, Counts, Stretches, Filter, LastMove;
    var le, log := LaneEvents(iv, lane), LaneLog(iv, lane);
    EventsOrdered(cfg, start, inputs, closeAt, iv, lane);
    NoStepRuns(start, inputs);
    DwellsAreStretches(cfg, inputs, closeAt, iv, lane);
    var i := LastMove(le[..k + 1]);
    MoveEnds(le, k);
    assert i < k ==> NotLater(le[i], le[k]);
    assert HasStretch(log, le, i, k + 1, iv.endedMS);
    var m :| 0 <= m < |log| && IsStretch(log[m], le, i, k + 1, iv.endedMS);
    assert log[m] in log;
    FilterMembers(InLane(lane), iv.dwellLog);
  }

  lemma MoveEnds(le: seq<OutEvent>, k: nat)
    requires k + 1 < |le| && PositionOf(le[k]) != PositionOf(le[k + 1])
    ensures var i := LastMove(le[..k + 1]); i <= k && OnePosition(le, i, k + 1)
  {
    hide LastMove, PositionOf;
    var front := le[..k + 1];
    assert forall m | 0 <= m <= k :: front[m] == le[m];
  }
}
