/** The tracker as the program keeps it: one object whose methods update it in place (cmd/projector/tracker.go).
    Every method is proved to compute what TrackerSpec says. */
module Trackers {
  import opened Sorting
  import opened Source
  import opened Text
  import opened Intervals
  import opened TrackerSpec
  import opened Frames
  import opened Pipeline
  import opened FaultLedgers
  import Results

  /** The fault summary of an interval. */
  datatype FaultTally = FaultTally(count: int, counts: map<string, int>, firstMS: Option<int>, lastMS: Option<int>)

  /** The event counters and terminal fields of an interval. */
  datatype EventTally = EventTally(terminalState: string, terminalStep: Option<int>, fsmEvents: int, stepEvents: int,
                                   stateTransitions: int, uniqueStates: set<string>)

  /** One interval and the rows buffered in it. */
  class IntervalRecord {
    const orderKey: string
    const isProduction: bool
    const startedMS: int
    var endedMS: int
    var result: Result
    var recipeID: Option<int>
    var glassCount: Option<int>
    var dominantFaultType: string
    var faultTally: FaultTally
    var eventTally: EventTally
    var events: seq<OutEvent>
    var stateDurations: seq<OutSpan>
    var stepDwells: seq<OutDwell>
    var faults: seq<OutFault>
    var toggles: seq<OutToggle>
    var configs: seq<OutConfig>
    var doorEvents: seq<OutDoor>
    ghost var dwellLog: seq<OutDwell>

    constructor (orderKey: string, isProduction: bool, startedMS: int, result: Result)
      ensures View() == NewInterval(orderKey, isProduction, startedMS, result)
    {
      this.orderKey, this.isProduction, this.startedMS, this.result := orderKey, isProduction, startedMS, result;
      endedMS, recipeID, glassCount, dominantFaultType := 0, None, None, "";
      faultTally := FaultTally(0, map[], None, None);
      eventTally := EventTally("", None, 0, 0, 0, {});
      events, stateDurations, stepDwells, faults, toggles, configs, doorEvents := [], [], [], [], [], [], [];
      dwellLog := [];
    }

    ghost function View(): Interval
      reads this
    {
      var f, e := faultTally, eventTally;
      Interval(orderKey, isProduction, startedMS, endedMS, result, recipeID, glassCount, e.terminalState,
               e.terminalStep, f.count, dominantFaultType, f.counts, f.firstMS, f.lastMS, e.fsmEvents, e.stepEvents,
               e.stateTransitions, e.uniqueStates, events, stateDurations, stepDwells, faults, toggles, configs,
               doorEvents, dwellLog)
    }

    method AddDwell(d: OutDwell)
      modifies this`stepDwells, this`dwellLog
      ensures View() == WithDwell(old(View()), d)
    {
      dwellLog := dwellLog + [d];
      if EmitsDwell(d.state, isProduction) {
        stepDwells := stepDwells + [d];
      }
    }

    method AddFault(f: OutFault)
      modifies this`faultTally, this`faults
      ensures View() == WithFault(old(View()), f)
    {
      var t := faultTally;
      var n := if f.faultType in t.counts then t.counts[f.faultType] else 0;
      var first := if t.firstMS.None? then Some(f.raisedAtMS) else t.firstMS;
      faultTally := FaultTally(t.count + 1, t.counts[f.faultType := n + 1], first, Some(f.raisedAtMS));
      faults := faults + [f];
    }

    method CountEvent(e: FsmEvent)
      modifies this`eventTally
      ensures View() == CountIn(old(View()), e)
    {
      var t := eventTally.(fsmEvents := eventTally.fsmEvents + 1);
      if e.currentState != "" {
        t := t.(uniqueStates := t.uniqueStates + {e.currentState}, terminalState := e.currentState);
      }
      if e.stepTo.Some? {
        t := t.(terminalStep := e.stepTo);
      }
      if e.kind == "state_transition" {
        t := t.(stateTransitions := t.stateTransitions + 1);
      } else if e.kind == "step_changed" {
        t := t.(stepEvents := t.stepEvents + 1);
      }
      eventTally := t;
    }
  }

  ghost function Views(s: seq<IntervalRecord>): seq<Interval>
    reads s
  {
    if s == [] then [] else Views(Front(s)) + [Last(s).View()]
  }

  /** The keys of a count, sorted. */
  method SortedKeys(counts: map<string, int>) returns (keys: seq<string>)
    ensures SortedBy(LexLe, keys)
    ensures forall k :: k in keys <==> k in counts
  {
    keys := [];
    var todo := counts.Keys;
    while todo != {}
      invariant todo <= counts.Keys
      invariant forall k :: k in keys <==> k in counts && k !in todo
      decreases todo
    {
      var k :| k in todo;
      keys := keys + [k];
      todo := todo - {k};
    }
    ghost var found := keys;
    keys := SortBy(LexLe, keys);
    LexLeTotal();
    SortBySorts(LexLe, found);
    forall k ensures k in keys <==> k in counts {
      assert k in keys <==> k in multiset(keys);
      assert k in found <==> k in multiset(found);
    }
  }

  /** dominantKey: the first key, in sorted order, that reaches the largest count. */
  method FindDominantKey(counts: map<string, int>) returns (best: string)
    ensures best == DominantKey(Positive(counts))
  {
    hide LexLess;
    var keys := SortedKeys(counts);
    best := "";
    var bestN := 0;
    for i := 0 to |keys|
      invariant forall j | 0 <= j < |keys| :: keys[j] in keys && keys[j] in counts
      invariant if bestN == 0 then best == ""
                else bestN > 0 && best in keys[..i] && best in counts && bestN == counts[best]
      invariant forall j | 0 <= j < i ::
                  counts[keys[j]] < bestN || (counts[keys[j]] == bestN && (bestN == 0 || LexLe(best, keys[j])))
    {
      assert keys[i] in keys;
      if counts[keys[i]] > bestN {
        best, bestN := keys[i], counts[keys[i]];
      } else if bestN > 0 {
        var b :| 0 <= b < i && keys[b] == best;
        assert LexLe(keys[b], keys[i]);
      }
    }
    ghost var positive := Positive(counts);
    forall k | k in positive ensures bestN > 0 && (counts[k] < bestN || (counts[k] == bestN && LexLe(best, k))) {
      assert k in keys;
      var j :| 0 <= j < |keys| && keys[j] == k;
    }
    if bestN == 0 {
      assert positive == map[];
      Results.NoDominantKey();
    } else {
      DominantKeyUnique(best, positive);
    }
  }

  class Tracker {
    const cfg: Settings
    const ledger: FaultLedger
    var current: IntervalRecord?
    var openState: Option<OpenSpan>
    var openDwells: map<Lane, OpenDwell>
    var dwellSeq: map<Lane, int>
    var openDoor: Option<OpenDoor>
    var closed: seq<IntervalRecord>
    var synthCounter: nat
    ghost var finished: seq<Interval>
    ghost var Repr: set<object>

    ghost predicate Valid()
      reads this, Repr
    {
      && this in Repr && ledger in Repr && ledger.buf in Repr && ledger.Valid()
      && (current != null ==> current in Repr && current !in closed)
      && forall c | c in closed :: c in Repr
    }

    ghost function View(): State
      requires Valid()
      reads this, Repr
    {
      State(if current == null then None else Some(current.View()), openState, openDwells, dwellSeq, ledger.Contents(),
            openDoor, synthCounter, Views(closed), finished)
    }

    constructor (cfg: Settings)
      ensures Valid() && fresh(Repr) && this.cfg == cfg && View() == INITIAL
    {
      this.cfg := cfg;
      var l := new FaultLedger();
      ledger := l;
      current, openState, openDoor := null, None, None;
      openDwells, dwellSeq := map[], map[];
      closed, synthCounter, finished := [], 0, [];
      Repr := {this, l, l.buf};
    }

    // -------------------------------------------------------------------------
    // Closing
    // -------------------------------------------------------------------------

    method CloseDwell(lane: Lane, atMS: int)
      requires Valid()
      modifies this`openDwells, current
      ensures Valid() && View() == TrackerSpec.CloseDwell(old(View()), lane, atMS)
    {
      if lane !in openDwells || current == null {
        return;
      }
      var d := openDwells[lane];
      openDwells := openDwells - {lane};
      if atMS <= d.startedMS {
        return;
      }
      current.AddDwell(DwellRow(d, lane, current.orderKey, atMS));
    }

    method CloseOpenDwells(atMS: int)
      requires Valid()
      modifies this`openDwells, current
      ensures Valid() && View() == TrackerSpec.CloseOpenDwells(old(View()), atMS)
    {
      CloseDwell(Crusher, atMS);
      CloseDwell(Main, atMS);
      CloseDwell(Tilter, atMS);
    }

    method CloseStateSpan(atMS: int, reason: string)
      requires Valid()
      modifies this`openState, current
      ensures Valid() && View() == TrackerSpec.CloseStateSpan(old(View()), atMS, reason)
    {
      if openState.None? || current == null || atMS <= openState.value.enteredMS {
        return;
      }
      var o := openState.value;
      var row := OutSpan(o.enteredMS, atMS, atMS - o.enteredMS, current.orderKey, o.state, o.entryReason, reason);
      current.stateDurations := current.stateDurations + [row];
      openState := None;
    }

    method CloseInterval(atMS: int, forced: Option<Result>)
      requires Valid()
      modifies this, current
      ensures Valid() && Repr == old(Repr) && current == null
      ensures View() == TrackerSpec.CloseInterval(old(View()), atMS, forced)
    {
      if current == null {
        return;
      }
      hide TrackerSpec.CloseOpenDwells, TrackerSpec.CloseStateSpan, Sealed;
      CloseOpenDwells(atMS);
      CloseStateSpan(atMS, "interval_end");
      Seal(current, atMS, forced);
      Retire();
    }

    /** Queues the sealed interval, unless it has no length. */
    method Retire()
      requires Valid() && current != null
      modifies this`current, this`closed, this`finished
      ensures Valid()
      ensures var t := old(View());
              var iv := t.current.value;
              View() == t.(current := None, finished := t.finished + [iv],
                           closed := if iv.endedMS <= iv.startedMS then t.closed else t.closed + [iv])
    {
      finished := finished + [current.View()];
      if current.endedMS > current.startedMS {
        closed := closed + [current];
        assert Front(closed) == old(closed);
      }
      current := null;
    }

    /** The fields an interval gets when it is closed. */
    method Seal(iv: IntervalRecord, atMS: int, forced: Option<Result>)
      modifies iv`endedMS, iv`result, iv`dominantFaultType
      ensures iv.View() == Sealed(old(iv.View()), atMS, forced)
    {
      iv.endedMS := atMS;
      if forced.Some? {
        iv.result := forced.value;
      }
      if iv.endedMS > iv.startedMS {
        iv.dominantFaultType := FindDominantKey(iv.faultTally.counts);
      }
    }

    // -------------------------------------------------------------------------
    // Opening
    // -------------------------------------------------------------------------

    /** nextSynthKey */
    method NextSynthKey(result: Result, atMS: int) returns (key: string)
      modifies this`synthCounter
      ensures synthCounter == old(synthCounter) + 1 && key == SynthKey(result, atMS, synthCounter)
    {
      synthCounter := synthCounter + 1;
      key := SynthKey(result, atMS, synthCounter);
    }

    /** resetPerInterval included */
    method Install(orderKey: string, isProduction: bool, atMS: int, result: Result)
      requires Valid() && current == null
      modifies this`current, this`dwellSeq, this`Repr
      ensures Valid() && fresh(Repr - old(Repr)) && current != null && fresh(current)
      ensures View() == old(View()).(current := Some(NewInterval(orderKey, isProduction, atMS, result)),
                                     dwellSeq := map[])
    {
      hide NewInterval;
      current := new IntervalRecord(orderKey, isProduction, atMS, result);
      dwellSeq := map[];
      Repr := Repr + {current};
    }

    method OpenInterval(orderKey: string, state: string, atMS: int)
      requires Valid() && current == null
      modifies this`current, this`dwellSeq, this`synthCounter, this`Repr
      ensures Valid() && fresh(Repr - old(Repr)) && current != null && fresh(current)
      ensures View() == Fresh(old(View()), orderKey, state, atMS)
    {
      hide NewInterval, SynthKey;
      if orderKey != "" {
        Install(orderKey, true, atMS, Aborted);
      } else {
        var want := ResultForState(state);
        var key := NextSynthKey(want, atMS);
        Install(key, false, atMS, want);
      }
    }

    method EnsureInterval(orderKey: string, state: string, atMS: int)
      requires Valid()
      modifies this, current
      ensures Valid() && fresh(Repr - old(Repr)) && current != null && (current == old(current) || fresh(current))
      ensures View() == TrackerSpec.EnsureInterval(cfg, old(View()), orderKey, state, atMS)
    {
      hide TrackerSpec.CloseInterval, Fresh;
      if current != null && cfg.maxIntervalMS > 0 && atMS - current.startedMS >= cfg.maxIntervalMS {
        var forced := current.result;
        if current.isProduction {
          forced := Aborted;
        }
        CloseInterval(atMS, Some(forced));
      }
      if orderKey != "" {
        if current != null && current.orderKey == orderKey {
          return;
        }
      } else if current != null && !current.isProduction && current.result == ResultForState(state) {
        return;
      }
      CloseInterval(atMS, None);
      OpenInterval(orderKey, state, atMS);
    }

    // -------------------------------------------------------------------------
    // Orders and events
    // -------------------------------------------------------------------------

    method RecordOrder(o: Order)
      requires Valid() && current != null
      modifies current`recipeID, current`glassCount
      ensures Valid() && View() == TrackerSpec.RecordOrder(old(View()), o)
    {
      if current.orderKey == o.orderKey {
        current.recipeID := Some(o.recipe);
        current.glassCount := Some(o.quantity);
      }
    }

    method ApplyOrder(o: Order)
      requires Valid()
      modifies this, current
      ensures Valid() && fresh(Repr - old(Repr))
      ensures View() == Step(cfg, old(View()), Apply(OrderRow(o)))
    {
      hide TrackerSpec.EnsureInterval, TrackerSpec.RecordOrder;
      EnsureInterval(o.orderKey, AUTO_CYCLE, Millis(o.ts));
      RecordOrder(o);
    }

    method TrackStateSpan(e: FsmEvent, atMS: int)
      requires Valid()
      modifies this`openState, current
      ensures Valid() && View() == TrackerSpec.TrackStateSpan(old(View()), e, atMS)
    {
      hide TrackerSpec.CloseStateSpan;
      var state := e.currentState;
      if state == "" || state == "Tilter" || state == "Crusher" {
        return;
      }
      if openState.Some? {
        if openState.value.state == state {
          return;
        }
        CloseStateSpan(atMS, e.kind);
      }
      openState := Some(OpenSpan(state, atMS, e.kind));
    }

    /** The event counts in the dwell that is open in its lane. */
    method CountInDwell(lane: Lane, e: FsmEvent)
      requires Valid() && lane in openDwells
      modifies this`openDwells
      ensures Valid()
      ensures var t := old(View());
              View() == t.(openDwells := t.openDwells[lane := TrackerSpec.CountEvent(t.openDwells[lane], e)])
    {
      hide TrackerSpec.CountEvent;
      openDwells := openDwells[lane := TrackerSpec.CountEvent(openDwells[lane], e)];
    }

    method StartDwell(lane: Lane, e: FsmEvent, step: Option<int>, atMS: int)
      requires Valid()
      modifies this`openDwells, this`dwellSeq
      ensures Valid()
      ensures var t := old(View());
              var n := NextSeq(t, lane);
              var started := TrackerSpec.CountEvent(OpenDwell(e.currentState, step, atMS, n, 0, 0, 0, 0), e);
              View() == t.(dwellSeq := t.dwellSeq[lane := n + 1], openDwells := t.openDwells[lane := started])
    {
      hide TrackerSpec.CountEvent;
      var n := if lane in dwellSeq then dwellSeq[lane] else 0;
      dwellSeq := dwellSeq[lane := n + 1];
      openDwells := openDwells[lane :=
        TrackerSpec.CountEvent(OpenDwell(e.currentState, step, atMS, n, 0, 0, 0, 0), e)];
    }

    method TrackDwell(e: FsmEvent, atMS: int)
      requires Valid() && current != null
      modifies this`openDwells, this`dwellSeq, current
      ensures Valid() && View() == TrackerSpec.TrackDwell(old(View()), e, atMS)
    {
      hide TrackerSpec.CloseDwell, TrackerSpec.CountEvent;
      var lane := LaneForState(e.currentState);
      var step := StepOf(e);
      if lane in openDwells {
        CountInDwell(lane, e);
        if SameDwell(openDwells[lane], e.currentState, step) {
          return;
        }
      }
      CloseDwell(lane, atMS);
      StartDwell(lane, e, step, atMS);
    }

    method AddEvent(e: FsmEvent, atMS: int)
      requires Valid() && current != null
      modifies current`events
      ensures Valid() && View() == TrackerSpec.AddEvent(old(View()), e, atMS)
    {
      current.events := current.events + [OutEvent(atMS, current.orderKey, e)];
    }

    method CountEvent(e: FsmEvent)
      requires Valid() && current != null
      modifies current`eventTally
      ensures Valid()
      ensures View() == old(View()).(current := Some(CountIn(old(View()).current.value, e)))
    {
      current.CountEvent(e);
    }

    method RecordEvent(e: FsmEvent, atMS: int)
      requires Valid() && current != null
      modifies this`openState, this`openDwells, this`dwellSeq, current
      ensures Valid() && View() == TrackerSpec.RecordEvent(cfg, old(View()), e, atMS)
    {
      hide TrackerSpec.TrackDwell, TrackerSpec.TrackStateSpan, TrackerSpec.AddEvent, CountIn;
      CountEvent(e);
      TrackStateSpan(e, atMS);
      if !cfg.useStepRuns {
        TrackDwell(e, atMS);
      }
      AddEvent(e, atMS);
    }

    method ApplyFSMEvent(e: FsmEvent)
      requires Valid()
      modifies this, current
      ensures Valid() && fresh(Repr - old(Repr))
      ensures View() == Step(cfg, old(View()), Apply(EventRow(e)))
    {
      hide TrackerSpec.EnsureInterval, TrackerSpec.CloseInterval, TrackerSpec.RecordEvent;
      var atMS := Millis(e.ts);
      EnsureInterval(e.orderKey, e.currentState, atMS);
      RecordEvent(e, atMS);
      if current.isProduction && e.currentState == AUTO_CYCLE && e.stepTo == Some(AUTO_CYCLE_COMPLETE_STEP) {
        CloseInterval(atMS, Some(Completed));
      }
    }

    // -------------------------------------------------------------------------
    // Faults
    // -------------------------------------------------------------------------

    method RecordLedgerFault(faultType: string, atMS: int)
      requires Valid()
      modifies ledger, ledger.buf, this`Repr
      ensures Valid() && fresh(Repr - old(Repr))
      ensures View() == old(View()).(ledgerFaults :=
                TrackerSpec.RecordLedgerFault(cfg, old(View()).ledgerFaults, faultType, atMS))
    {
      hide TrackerSpec.RecordLedgerFault;
      ledger.Record(cfg, faultType, atMS);
      Repr := Repr + {ledger.buf};
    }

    /** The open dwell of the main lane counts the fault. */
    method MarkDwell() returns (dwellSeqIndex: Option<int>)
      requires Valid()
      modifies this`openDwells
      ensures Valid()
      ensures var t := old(View());
              && dwellSeqIndex == (if Main in t.openDwells then Some(t.openDwells[Main].seqIndex) else None)
              && View() == t.(openDwells :=
                   if Main in t.openDwells
                   then t.openDwells[Main := t.openDwells[Main].(faults := t.openDwells[Main].faults + 1)]
                   else t.openDwells)
    {
      dwellSeqIndex := None;
      if Main in openDwells {
        var d := openDwells[Main];
        openDwells := openDwells[Main := d.(faults := d.faults + 1)];
        dwellSeqIndex := Some(d.seqIndex);
      }
    }

    method AddFault(row: OutFault)
      requires Valid() && current != null
      modifies current`faultTally, current`faults
      ensures Valid()
      ensures View() == old(View()).(current := Some(WithFault(old(View()).current.value, row)))
    {
      hide WithFault;
      current.AddFault(row);
    }

    method RecordFault(f: Fault, atMS: int)
      requires Valid() && current != null
      modifies this`openDwells, this`Repr, ledger, ledger.buf, current
      ensures Valid() && fresh(Repr - old(Repr)) && current == old(current)
      ensures View() == TrackerSpec.RecordFault(cfg, old(View()), f, atMS)
    {
      hide TrackerSpec.RecordLedgerFault, WithFault, LedgerFaultKey;
      RecordLedgerFault(f.faultType, atMS);
      var dwellSeqIndex := MarkDwell();
      AddFault(OutFault(atMS, current.orderKey, LedgerFaultKey(f, current.orderKey), f.faultType,
                        cfg.severity(f.faultType), f.state, f.step, f.message, dwellSeqIndex));
    }

    method ApplyFault(f: Fault)
      requires Valid()
      modifies this, current, ledger, ledger.buf
      ensures Valid() && fresh(Repr - old(Repr))
      ensures View() == Step(cfg, old(View()), Apply(FaultRow(f)))
    {
      hide TrackerSpec.EnsureInterval, TrackerSpec.CloseInterval, TrackerSpec.RecordFault;
      var atMS := Millis(f.ts);
      EnsureInterval(f.orderKey, f.state, atMS);
      RecordFault(f, atMS);
      if current.isProduction {
        CloseInterval(atMS, Some(FaultResult(cfg.severity(f.faultType))));
      }
    }

    // -------------------------------------------------------------------------
    // Step runs
    // -------------------------------------------------------------------------

    /** A step run is a dwell that is over already. */
    method AddStepRun(sr: StepRun) returns (seqIndex: int)
      requires Valid() && current != null
      modifies this`dwellSeq, current`stepDwells, current`dwellLog
      ensures Valid()
      ensures var t := old(View());
              var lane := LaneForState(sr.currentState);
              var iv := t.current.value;
              && seqIndex == NextSeq(t, lane)
              && View() == t.(dwellSeq := t.dwellSeq[lane := seqIndex + 1],
                              current := Some(WithDwell(iv, StepRunDwell(sr, iv.orderKey, seqIndex))))
    {
      hide WithDwell, StepRunDwell;
      var lane := LaneForState(sr.currentState);
      seqIndex := if lane in dwellSeq then dwellSeq[lane] else 0;
      dwellSeq := dwellSeq[lane := seqIndex + 1];
      current.AddDwell(StepRunDwell(sr, current.orderKey, seqIndex));
    }

    method ApplyStepRunFault(sr: StepRun, seqIndex: int) returns (ended: bool)
      requires Valid() && current != null && Millis(sr.started) < Millis(sr.ended)
      requires EmitsDwell(sr.currentState, current.isProduction)
      modifies this, current
      ensures Valid() && Repr == old(Repr) && (ended || (current == old(current) && current != null))
      ensures var t := old(View());
              var counts := StepRunFaultCounts(cfg, t, sr);
              var r := if counts then RecordStepRunFault(cfg, t, sr, seqIndex) else t;
              && ended == (counts && t.current.value.isProduction)
              && View() == if ended
                   then TrackerSpec.CloseInterval(r, Millis(sr.ended), Some(FaultResult(cfg.severity(sr.faultType))))
                   else r
    {
      hide TrackerSpec.CloseInterval, WithFault, StepRunFaultKey;
      var endMS := Millis(sr.ended);
      if sr.faultType == "" || !cfg.stepRunFaults {
        return false;
      }
      var covered := ledger.Covers(sr.faultType, Millis(sr.started), endMS);
      if covered {
        return false;
      }
      AddFault(OutFault(endMS, current.orderKey, StepRunFaultKey(sr, current.orderKey), sr.faultType,
                        cfg.severity(sr.faultType), sr.currentState, sr.step, sr.faultMessage, Some(seqIndex)));
      if !current.isProduction {
        return false;
      }
      CloseInterval(endMS, Some(FaultResult(cfg.severity(sr.faultType))));
      return true;
    }

    /** The verdict of a step run that was added. */
    method EndStepRun(sr: StepRun, seqIndex: int)
      requires Valid() && current != null && Millis(sr.started) < Millis(sr.ended)
      requires EmitsDwell(sr.currentState, current.isProduction)
      modifies this, current
      ensures Valid() && Repr == old(Repr)
      ensures var t := old(View());
              var counts := StepRunFaultCounts(cfg, t, sr);
              var r := if counts then RecordStepRunFault(cfg, t, sr, seqIndex) else t;
              var verdict := VerdictOf(cfg, t, Apply(StepRunRow(sr)));
              View() == if verdict.Some? then TrackerSpec.CloseInterval(r, Millis(sr.ended), verdict) else r
    {
      hide TrackerSpec.CloseInterval, RecordStepRunFault, StepRunFaultCounts;
      var ended := ApplyStepRunFault(sr, seqIndex);
      if ended {
        return;
      }
      if current.isProduction && sr.currentState == AUTO_CYCLE && sr.step == AUTO_CYCLE_COMPLETE_STEP {
        CloseInterval(Millis(sr.ended), Some(Completed));
      }
    }

    /** A step run in the interval that serves it. */
    method IngestStepRun(sr: StepRun)
      requires Valid() && current != null
      modifies this, current
      ensures Valid() && Repr == old(Repr)
      ensures var t := old(View());
              var r := RecordStepRun(cfg, t, sr);
              var verdict := VerdictOf(cfg, t, Apply(StepRunRow(sr)));
              View() == if verdict.Some? then TrackerSpec.CloseInterval(r, Millis(sr.ended), verdict) else r
    {
      hide TrackerSpec.CloseInterval, StepRunDwell, RecordStepRunFault, LedgerCovers;
      if Millis(sr.ended) <= Millis(sr.started) {
        return;
      }
      var seqIndex := AddStepRun(sr);
      if !EmitsDwell(sr.currentState, current.isProduction) {
        return;
      }
      EndStepRun(sr, seqIndex);
    }

    method ApplyStepRun(sr: StepRun)
      requires Valid()
      modifies this, current
      ensures Valid() && fresh(Repr - old(Repr))
      ensures View() == Step(cfg, old(View()), Apply(StepRunRow(sr)))
    {
      hide TrackerSpec.EnsureInterval, TrackerSpec.CloseInterval, RecordStepRun, VerdictOf;
      EnsureInterval(sr.orderKey, sr.currentState, Millis(sr.started));
      IngestStepRun(sr);
    }

    // -------------------------------------------------------------------------
    // Toggles, doors, configuration
    // -------------------------------------------------------------------------

    method CloseDoorEpisode(s: Toggle, atMS: int)
      requires Valid()
      modifies this`openDoor, current
      ensures Valid() && View() == TrackerSpec.CloseDoorEpisode(old(View()), s, atMS)
    {
      var was := openDoor;
      openDoor := None;
      if was.None? || current == null || atMS <= was.value.openedMS {
        return;
      }
      current.doorEvents := current.doorEvents + [DoorRow(was.value, s, current.orderKey, atMS)];
    }

    method ApplyDoorSignals(s: Toggle, atMS: int)
      requires Valid()
      modifies this`openDoor, current
      ensures Valid() && View() == TrackerSpec.ApplyDoorSignals(old(View()), s, atMS)
    {
      hide TrackerSpec.CloseDoorEpisode, CountReset;
      if s.inputID == MAIN_DOOR_SWITCH {
        if s.valueFrom == 1 && s.valueTo == 0 {
          openDoor := Some(OpenDoor(atMS, s.currentState, s.currentStep, s.currentState == "Error", 0, None, None));
        } else if s.valueFrom == 0 && s.valueTo == 1 {
          CloseDoorEpisode(s, atMS);
        }
      } else if s.inputID == CIP_BYPASS_SWITCH {
        if s.valueFrom == 0 && s.valueTo == 1 && openDoor.Some? {
          openDoor := Some(CountReset(openDoor.value, atMS));
        }
      }
    }

    method AddToggle(s: Toggle, atMS: int)
      requires Valid() && current != null
      modifies current`toggles
      ensures Valid() && View() == TrackerSpec.AddToggle(old(View()), s, atMS)
    {
      current.toggles := current.toggles + [OutToggle(atMS, current.orderKey, s)];
    }

    method ApplySensorToggle(s: Toggle)
      requires Valid()
      modifies this, current
      ensures Valid() && fresh(Repr - old(Repr))
      ensures View() == Step(cfg, old(View()), Apply(ToggleRow(s)))
    {
      hide TrackerSpec.EnsureInterval, TrackerSpec.ApplyDoorSignals, TrackerSpec.AddToggle, TrackerSpec.CloseInterval;
      var atMS := Millis(s.ts);
      EnsureInterval(s.orderKey, s.currentState, atMS);
      ApplyDoorSignals(s, atMS);
      AddToggle(s, atMS);
    }

    method AddConfig(key: string, oldValue: string, newValue: string, atMS: int)
      requires Valid() && current != null
      modifies current`configs
      ensures Valid() && View() == RecordConfig(old(View()), key, oldValue, newValue, atMS)
    {
      current.configs := current.configs + [OutConfig(atMS, current.orderKey, key, oldValue, newValue)];
    }

    method ApplyConfigChange(key: string, oldValue: string, newValue: string, at: int)
      requires Valid()
      modifies this, current
      ensures Valid() && fresh(Repr - old(Repr))
      ensures View() == Step(cfg, old(View()), Config(key, oldValue, newValue, at))
    {
      hide TrackerSpec.EnsureInterval, RecordConfig, ResultText, TrackerSpec.CloseInterval;
      var state := "";
      if current != null && !current.isProduction {
        state := ResultText(current.result);
      }
      EnsureInterval("", state, Millis(at));
      AddConfig(key, oldValue, newValue, Millis(at));
    }

    /** The dispatch of the tick loop. */
    method ApplyRow(row: Row)
      requires Valid()
      modifies Repr
      ensures Valid() && fresh(Repr - old(Repr))
      ensures View() == Step(cfg, old(View()), Apply(row))
    {
      hide Step;
      match row {
        case OrderRow(o) => ApplyOrder(o);
        case EventRow(e) => ApplyFSMEvent(e);
        case StepRunRow(sr) => ApplyStepRun(sr);
        case FaultRow(f) => ApplyFault(f);
        case ToggleRow(s) => ApplySensorToggle(s);
      }
    }

    // -------------------------------------------------------------------------
    // Flushing
    // -------------------------------------------------------------------------

    method FlushOpen(atMS: int)
      requires Valid()
      modifies this, current
      ensures Valid() && Repr == old(Repr)
      ensures View() == TrackerSpec.FlushOpen(old(View()), atMS)
    {
      hide TrackerSpec.CloseInterval;
      if current == null {
        return;
      }
      var at := atMS;
      if at <= current.startedMS {
        at := current.startedMS + 1;
      }
      var forced := current.result;
      if current.isProduction {
        forced := Aborted;
      }
      CloseInterval(at, Some(forced));
    }

    /** Hands over everything closed since the last call, by end; equal ends stay in closing order. */
    method PendingIntervals() returns (out: seq<IntervalRecord>)
      requires Valid()
      modifies this`closed
      ensures Valid() && (forall c | c in out :: c in Repr && c != current)
      ensures Views(out) == Handover(old(View()).closed)
      ensures View() == HandedOver(old(View()))
    {
      hide Handover;
      out := SortedByEnd(closed);
      closed := [];
    }
  }

  lemma {:induction false} ViewsAt(s: seq<IntervalRecord>)
    ensures |Views(s)| == |s| && forall k | 0 <= k < |s| :: Views(s)[k] == s[k].View()
  {
    if s != [] {
      ViewsAt(Front(s));
    }
  }

  lemma {:induction false} InsertAt<T>(le: (T, T) -> bool, x: T, s: seq<T>, n: nat)
    requires n <= |s|
    requires forall k | 0 <= k < n :: !le(x, s[k])
    requires n < |s| ==> le(x, s[n])
    ensures Insert(le, x, s) == s[..n] + [x] + s[n..]
  {
    if n > 0 {
      InsertAt(le, x, s[1..], n - 1);
    }
  }

  method SortedByEnd(s: seq<IntervalRecord>) returns (out: seq<IntervalRecord>)
    ensures Views(out) == Handover(Views(s))
    ensures forall c | c in out :: c in s
  {
    ViewsAt(s);
    ghost var views := Views(s);
    out := [];
    var i := |s|;
    while i > 0
      invariant 0 <= i <= |s|
      invariant Views(out) == SortBy(EndsBefore, views[i..])
      invariant forall c | c in out :: c in s
    {
      i := i - 1;
      assert views[i..][1..] == views[i + 1..];
      out := InsertByEnd(s[i], out);
    }
    assert views[0..] == views;
  }

  method InsertByEnd(x: IntervalRecord, s: seq<IntervalRecord>) returns (out: seq<IntervalRecord>)
    ensures Views(out) == Insert(EndsBefore, x.View(), Views(s))
    ensures forall c | c in out :: c == x || c in s
  {
    hide Insert, Views, IntervalRecord.View;
    ViewsAt(s);
    var n := 0;
    while n < |s| && s[n].endedMS < x.endedMS
      invariant 0 <= n <= |s|
      invariant forall k | 0 <= k < n :: s[k].endedMS < x.endedMS
    {
      n := n + 1;
    }
    out := s[..n] + [x] + s[n..];
    EndsOf(x, s);
    InsertAt(EndsBefore, x.View(), Views(s), n);
    ViewsAt(out);
    assert Views(out) == Views(s)[..n] + [x.View()] + Views(s)[n..];
  }

  lemma EndsOf(x: IntervalRecord, s: seq<IntervalRecord>)
    ensures |Views(s)| == |s|
    ensures forall k | 0 <= k < |s| :: EndsBefore(x.View(), Views(s)[k]) <==> x.endedMS <= s[k].endedMS
  {
    ViewsAt(s);
  }
}
