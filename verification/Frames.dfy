/** What the tracker's operations leave alone, and the runs the whole-run results are about. */
module Frames {
  import opened Source
  import opened Intervals
  import opened TrackerSpec

  /** Two intervals with the same events, faults, toggles, configuration changes and door episodes. */
  predicate SameRows(a: Interval, b: Interval) {
    && a.events == b.events && a.faults == b.faults && a.toggles == b.toggles && a.configs == b.configs
    && a.doorEvents == b.doorEvents
  }

  predicate SameTally(a: Interval, b: Interval) {
    && a.faultCount == b.faultCount && a.faultTypeCounts == b.faultTypeCounts
    && a.firstFaultMS == b.firstFaultMS && a.lastFaultMS == b.lastFaultMS
    && a.fsmEventCount == b.fsmEventCount && a.stepEventCount == b.stepEventCount
    && a.stateTransitionCount == b.stateTransitionCount && a.uniqueStates == b.uniqueStates
    && a.terminalState == b.terminalState && a.terminalStep == b.terminalStep
    && a.recipeID == b.recipeID && a.glassCount == b.glassCount
  }

  predicate IsSealed(iv: Interval, r: Interval, atMS: int, forced: Option<Result>) {
    && SameRows(iv, r) && SameTally(iv, r)
    && r.orderKey == iv.orderKey && r.isProduction == iv.isProduction
    && r.startedMS == iv.startedMS && r.endedMS == atMS
    && r.result == (if forced.Some? then forced.value else iv.result)
  }

  function Last<T>(s: seq<T>): T
    requires s != []
  {
    s[|s| - 1]
  }

  function Front<T>(s: seq<T>): seq<T>
    requires s != []
  {
    s[..|s| - 1]
  }

  /** Closing moves the open interval to the end of the history, with its rows and counters as they were. */
  lemma CloseFrame(t: State, atMS: int, forced: Option<Result>)
    ensures var c := CloseInterval(t, atMS, forced);
            if t.current.None? then c == t else
            && c.current.None? && c.finished != [] && Front(c.finished) == t.finished
            && IsSealed(t.current.value, Last(c.finished), atMS, forced)
            && c.closed == (if t.current.value.startedMS < atMS then t.closed + [Last(c.finished)] else t.closed)
            && c.ledgerFaults == t.ledgerFaults && c.openDoor == t.openDoor && c.synthCounter == t.synthCounter
            && c.openDwells == map[]
  {
  }

  /** Making sure of an interval keeps the open one, or closes it and opens another at the same instant. */
  lemma EnsureShape(cfg: Settings, t: State, orderKey: string, state: string, atMS: int)
    ensures var r := EnsureInterval(cfg, t, orderKey, state, atMS);
            if Serves(t, orderKey, state) && !Overdue(cfg, t, atMS) then r == t
            else
              var forced := if Overdue(cfg, t, atMS) then Some(ForcedResult(t.current.value)) else None;
              r == Fresh(CloseInterval(t, atMS, forced), orderKey, state, atMS)
  {
    hide CloseInterval, Fresh;
    if Overdue(cfg, t, atMS) {
      CloseFrame(t, atMS, Some(ForcedResult(t.current.value)));
      CloseFrame(CloseInterval(t, atMS, Some(ForcedResult(t.current.value))), atMS, None);
    }
  }

  // ---------------------------------------------------------------------------
  // Runs
  // ---------------------------------------------------------------------------

  predicate IsStepRun(i: Input) {
    i.Apply? && i.row.StepRunRow?
  }

  /** No input is earlier than the one before it or than `start`, and step runs do not end before they start. */
  predicate TimeOrdered(start: int, inputs: seq<Input>) {
    && (forall k | 0 <= k < |inputs| :: start <= AtMS(inputs[k]) && OpenAtMS(inputs[k]) <= AtMS(inputs[k]))
    && (forall j, k | 0 <= j < k < |inputs| :: AtMS(inputs[j]) <= AtMS(inputs[k]))
  }

  predicate BasePath(start: int, inputs: seq<Input>) {
    TimeOrdered(start, inputs) && forall k | 0 <= k < |inputs| :: !IsStepRun(inputs[k])
  }

  /** The instant of the last input. */
  function Now(start: int, inputs: seq<Input>): int {
    if inputs == [] then start else AtMS(Last(inputs))
  }

  lemma TimeOrderedFront(start: int, inputs: seq<Input>)
    requires TimeOrdered(start, inputs) && inputs != []
    ensures TimeOrdered(start, Front(inputs))
    ensures start <= Now(start, Front(inputs)) <= AtMS(Last(inputs))
    ensures BasePath(start, inputs) ==> BasePath(start, Front(inputs)) && !IsStepRun(Last(inputs))
  {
  }

  lemma RunUnfold(cfg: Settings, t: State, inputs: seq<Input>)
    requires inputs != []
    ensures Run(cfg, t, inputs) == Step(cfg, Run(cfg, t, Front(inputs)), Last(inputs))
  {
    hide Step;
  }

  lemma {:induction false} RunAppend(cfg: Settings, t: State, a: seq<Input>, b: seq<Input>)
    ensures Run(cfg, t, a + b) == Run(cfg, Run(cfg, t, a), b)
  {
    hide Step;
    if b == [] {
      assert a + b == a;
    } else {
      assert Front(a + b) == a + Front(b) && Last(a + b) == Last(b);
      RunUnfold(cfg, t, a + b);
      RunUnfold(cfg, Run(cfg, t, a), b);
      RunAppend(cfg, t, a, Front(b));
    }
  }

  /** A run from the initial state, and its final flush. */
  ghost function WholeRun(cfg: Settings, inputs: seq<Input>, closeAt: int): State {
    FlushOpen(Run(cfg, INITIAL, inputs), closeAt)
  }

  // The final flush is a closing.

  function FlushAt(t: State, closeAt: int): int {
    if t.current.Some? && closeAt <= t.current.value.startedMS then t.current.value.startedMS + 1 else closeAt
  }

  function FlushResult(t: State): Option<Result> {
    if t.current.Some? then Some(ForcedResult(t.current.value)) else None
  }

  lemma FlushIsClose(cfg: Settings, inputs: seq<Input>, closeAt: int)
    ensures var t := Run(cfg, INITIAL, inputs);
            WholeRun(cfg, inputs, closeAt) == CloseInterval(t, FlushAt(t, closeAt), FlushResult(t))
  {
    hide Run;
  }
}
