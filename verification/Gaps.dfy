/** Whether the intervals of a run partition machine time (cmd/projector/tracker.go): exactly when no verdict is
    followed by a later input. */
module Gaps {
  import opened Source
  import opened Intervals
  import opened TrackerSpec
  import opened Frames
  import opened Timeline

  ghost predicate ClosedAt(ivs: seq<Interval>, ms: int) {
    exists k :: 0 <= k < |ivs| && ivs[k].startedMS <= ms < ivs[k].endedMS
  }

  /** The instant lies in a closed interval, or the open one had begun. */
  ghost predicate HeldAt(t: State, ms: int) {
    ClosedAt(t.finished, ms) || (t.current.Some? && t.current.value.startedMS <= ms)
  }

  lemma OneMoreClosed(ivs: seq<Interval>, iv: Interval, ms: int)
    ensures ClosedAt(ivs + [iv], ms) <==> ClosedAt(ivs, ms) || iv.startedMS <= ms < iv.endedMS
  {
    var more := ivs + [iv];
    assert more[|ivs|] == iv && forall k | 0 <= k < |ivs| :: more[k] == ivs[k];
  }

  /** Closing at an instant leaves earlier instants as they were. */
  lemma CloseHolds(t: State, atMS: int, forced: Option<Result>, ms: int)
    requires ms < atMS
    ensures HeldAt(CloseInterval(t, atMS, forced), ms) <==> HeldAt(t, ms)
  {
    hide CloseInterval, SameRows, SameTally, ClosedAt;
    CloseFrame(t, atMS, forced);
    if t.current.Some? {
      var c := CloseInterval(t, atMS, forced);
      assert c.finished == t.finished + [Last(c.finished)];
      OneMoreClosed(t.finished, Last(c.finished), ms);
    }
  }

  lemma StepHolds(cfg: Settings, t: State, i: Input, ms: int)
    requires !IsStepRun(i) && ms < AtMS(i)
    ensures HeldAt(Step(cfg, t, i), ms) <==> HeldAt(t, ms)
  {
    hide CloseInterval, EnsureInterval, Record, SynthKey, ClosedAt, VerdictOf;
    EnsureShape(cfg, t, KeyOf(i), StateOf(t, i), AtMS(i));
    var forced := if Overdue(cfg, t, AtMS(i)) then Some(ForcedResult(t.current.value)) else None;
    CloseHolds(t, AtMS(i), forced, ms);
    CloseFrame(t, AtMS(i), forced);
    var t1 := Opened(cfg, t, i);
    assert HeldAt(t1, ms) <==> HeldAt(t, ms);
    CloseHolds(Record(cfg, t1, i), AtMS(i), VerdictOf(cfg, t1, i), ms);
  }

  /** From its latest instant on, a state holds what its open interval holds. */
  lemma HoldsByCurrent(t: State, now: int, ms: int)
    requires Chained(t, now) && now <= ms
    ensures HeldAt(t, ms) <==> t.current.Some?
  {
  }

  ghost predicate HeldFrom(t: State, lo: int, hi: int) {
    forall ms | lo <= ms < hi :: HeldAt(t, ms)
  }

  /** The input before position k ended in a verdict, and input k came later. */
  ghost predicate VerdictThenLater(cfg: Settings, inputs: seq<Input>, k: nat)
    requires 0 < k < |inputs|
  {
    Run(cfg, INITIAL, inputs[..k]).current.None? && AtMS(inputs[k - 1]) < AtMS(inputs[k])
  }

  ghost predicate NoGap(cfg: Settings, inputs: seq<Input>) {
    forall k | 0 < k < |inputs| :: !VerdictThenLater(cfg, inputs, k)
  }

  lemma NoGapMore(cfg: Settings, inputs: seq<Input>, i: Input)
    requires inputs != []
    ensures NoGap(cfg, inputs + [i])
       <==> NoGap(cfg, inputs) && !(Run(cfg, INITIAL, inputs).current.None? && AtMS(Last(inputs)) < AtMS(i))
  {
    hide Run;
    var more := inputs + [i];
    assert more[..|inputs|] == inputs && more[|inputs|] == i;
    forall k | 0 < k < |inputs| ensures VerdictThenLater(cfg, more, k) <==> VerdictThenLater(cfg, inputs, k) {
      assert more[..k] == inputs[..k];
    }
    assert VerdictThenLater(cfg, more, |inputs|) <==>
           Run(cfg, INITIAL, inputs).current.None? && AtMS(Last(inputs)) < AtMS(i);
  }

  lemma OneStepOn(cfg: Settings, t: State, i: Input, lo: int, now: int)
    requires Chained(t, now) && !IsStepRun(i) && lo <= now <= AtMS(i)
    ensures HeldFrom(Step(cfg, t, i), lo, AtMS(i))
       <==> HeldFrom(t, lo, now) && (now == AtMS(i) || t.current.Some?)
  {
    hide Step, HeldAt, Chained;
    forall ms | lo <= ms < AtMS(i) ensures HeldAt(Step(cfg, t, i), ms) <==> HeldAt(t, ms) {
      StepHolds(cfg, t, i, ms);
    }
    forall ms | now <= ms < AtMS(i) ensures HeldAt(t, ms) <==> t.current.Some? {
      HoldsByCurrent(t, now, ms);
    }
    assert now < AtMS(i) ==> (HeldAt(t, now) <==> t.current.Some?);
  }

  lemma {:induction false} RunHolds(cfg: Settings, start: int, inputs: seq<Input>)
    requires BasePath(start, inputs) && inputs != []
    ensures HeldFrom(Run(cfg, INITIAL, inputs), AtMS(inputs[0]), Now(start, inputs)) <==> NoGap(cfg, inputs)
  {
    hide Step, HeldFrom, Chained;
    var front, i := Front(inputs), Last(inputs);
    assert inputs == front + [i];
    TimeOrderedFront(start, inputs);
    if front == [] {
      NothingToHold(Run(cfg, INITIAL, inputs), AtMS(i));
    } else {
      RunHolds(cfg, start, front);
      InitialChained(start);
      RunChained(cfg, INITIAL, start, front);
      OneStepOn(cfg, Run(cfg, INITIAL, front), i, AtMS(inputs[0]), Now(start, front));
      NoGapMore(cfg, front, i);
    }
  }

  lemma NothingToHold(t: State, at: int)
    ensures HeldFrom(t, at, at)
  {
  }

  lemma {:induction false} EmittedHolds(ivs: seq<Interval>, ms: int)
    ensures ClosedAt(Emitted(ivs), ms) <==> ClosedAt(ivs, ms)
  {
    hide ClosedAt;
    if ivs != [] {
      var front, iv := Front(ivs), Last(ivs);
      EmittedHolds(front, ms);
      assert ivs == front + [iv];
      OneMoreClosed(front, iv, ms);
      OneMoreClosed(Emitted(front), iv, ms);
      assert Emitted(front) + [] == Emitted(front);
    }
  }

  // ---------------------------------------------------------------------------
  // Main results
  // ---------------------------------------------------------------------------

  /** Every instant of [lo, hi) lies in an interval, and no instant lies in two. */
  ghost predicate Partition(ivs: seq<Interval>, lo: int, hi: int) {
    && (forall ms | lo <= ms < hi :: ClosedAt(ivs, ms))
    && (forall j, k | 0 <= j < k < |ivs| :: ivs[j].endedMS <= ivs[k].startedMS)
  }

  /** The intervals a base-path run and its flush hand over partition the time from the first input to the last exactly
      when no input that ended in a verdict is followed by a later one. */
  lemma PartitionExactly(cfg: Settings, start: int, inputs: seq<Input>, closeAt: int)
    requires BasePath(start, inputs) && inputs != [] && Now(start, inputs) <= closeAt
    ensures Partition(WholeRun(cfg, inputs, closeAt).closed, AtMS(inputs[0]), Now(start, inputs)) <==>
            NoGap(cfg, inputs)
  {
    hide Run, FlushOpen, CloseInterval, Chain, NoGap, BasePath, ClosedAt, EmittedInOrder;
    var f, t := WholeRun(cfg, inputs, closeAt), Run(cfg, INITIAL, inputs);
    RunHolds(cfg, start, inputs);
    RunTimeline(cfg, start, inputs, closeAt);
    forall j, k | 0 <= j < k < |f.closed| ensures f.closed[j].endedMS <= f.closed[k].startedMS {
      EmittedApart(f.finished, closeAt + 1, j, k);
    }
    FlushIsClose(cfg, inputs, closeAt);
    forall ms | AtMS(inputs[0]) <= ms < Now(start, inputs) ensures ClosedAt(f.closed, ms) <==> HeldAt(t, ms) {
      CloseHolds(t, FlushAt(t, closeAt), FlushResult(t), ms);
      EmittedHolds(f.finished, ms);
    }
  }

  /** Where the gap opens: after a verdict the next input opens its interval at its own instant, later than the last
      one ended exactly when the input itself is later. */
  lemma GapOpensAtTheNextInput(cfg: Settings, start: int, inputs: seq<Input>, i: Input)
    requires BasePath(start, inputs + [i]) && inputs != [] && Run(cfg, INITIAL, inputs).current.None?
    ensures var t := Run(cfg, INITIAL, inputs);
            && t.finished != [] && Opened(cfg, t, i).current.value.startedMS == AtMS(i)
            && (Last(t.finished).endedMS < AtMS(i) <==> Now(start, inputs) < AtMS(i))
  {
    hide Run, CloseInterval, EnsureInterval, Record, VerdictOf, SynthKey, SameRows, SameTally;
    var t := Run(cfg, INITIAL, inputs);
    EnsureShape(cfg, t, KeyOf(i), StateOf(t, i), AtMS(i));
    assert (inputs + [i])[|inputs|] == i && (inputs + [i])[|inputs| - 1] == Last(inputs);
    VerdictEndsNow(cfg, inputs);
  }

  lemma VerdictEndsNow(cfg: Settings, inputs: seq<Input>)
    requires inputs != [] && Run(cfg, INITIAL, inputs).current.None?
    ensures var t := Run(cfg, INITIAL, inputs); t.finished != [] && Last(t.finished).endedMS == AtMS(Last(inputs))
  {
    hide CloseInterval, EnsureInterval, Record, VerdictOf, SameRows, SameTally;
    var t := Run(cfg, INITIAL, Front(inputs));
    var i := Last(inputs);
    RunUnfold(cfg, INITIAL, inputs);
    var t1 := Opened(cfg, t, i);
    CloseFrame(Record(cfg, t1, i), AtMS(i), VerdictOf(cfg, t1, i));
  }

  const CYCLE: seq<Input> :=
    [Apply(OrderRow(Order(1, 10_000_000, "A", 1, 1))),
     Apply(EventRow(FsmEvent(1, 20_000_000, "step_changed", "AutoCycle", Some(18), Some(19), "A", ""))),
     Apply(EventRow(FsmEvent(2, 50_000_000, "state_transition", "HomeIdle", None, None, "", "")))]

  lemma OrderOpens(cfg: Settings)
    ensures var t := Run(cfg, INITIAL, CYCLE[..1]); t.current.Some? && t.current.value.isProduction
  {
    hide CloseInterval, EnsureInterval, RecordOrder;
    assert Front(CYCLE[..1]) == [] && Last(CYCLE[..1]) == CYCLE[0];
    RunUnfold(cfg, INITIAL, CYCLE[..1]);
    EnsureShape(cfg, INITIAL, "A", AUTO_CYCLE, 10);
    CloseFrame(INITIAL, 10, None);
  }

  /** An order at 10 ms, its completion at 20 ms and an idle event at 50 ms leave the time between uncovered, whatever
      the settings. */
  lemma CompletedCycleLeavesGap(cfg: Settings, closeAt: int)
    requires closeAt >= 50
    ensures BasePath(0, CYCLE) && !Partition(WholeRun(cfg, CYCLE, closeAt).closed, 10, 50)
  {
    hide Run, WholeRun, Partition;
    PartitionExactly(cfg, 0, CYCLE, closeAt);
    CompletionCloses(cfg);
    assert VerdictThenLater(cfg, CYCLE, 2);
  }

  lemma CompletionCloses(cfg: Settings)
    ensures Run(cfg, INITIAL, CYCLE[..2]).current.None?
  {
    hide Run, CloseInterval, EnsureInterval, Record, SameRows, SameTally;
    var t := Run(cfg, INITIAL, CYCLE[..1]);
    assert Front(CYCLE[..2]) == CYCLE[..1] && Last(CYCLE[..2]) == CYCLE[1];
    RunUnfold(cfg, INITIAL, CYCLE[..2]);
    EnsureShape(cfg, t, "A", "AutoCycle", 20);
    var t1 := Opened(cfg, t, CYCLE[1]);
    OrderOpens(cfg);
    CloseFrame(Record(cfg, t1, CYCLE[1]), 20, Some(Completed));
  }
}
