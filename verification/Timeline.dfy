/** The intervals of a base-path run on the time axis. */
module Timeline {
  import opened Source
  import opened Intervals
  import opened TrackerSpec
  import opened Frames

  /** A completion marker or a production fault closed the interval. */
  predicate Concluded(iv: Interval) {
    iv.result == Completed || iv.result == FaultedRecoverable || iv.result == FaultedNonRecoverable
  }

  /** The next interval starts where this one ended, or later after a verdict. */
  predicate Follows(iv: Interval, nextStart: int) {
    iv.endedMS <= nextStart && (iv.endedMS == nextStart || Concluded(iv))
  }

  ghost predicate Chain(ivs: seq<Interval>, now: int) {
    && (forall k | 0 <= k < |ivs| :: ivs[k].startedMS <= ivs[k].endedMS <= now)
    && (forall k | 0 < k < |ivs| :: Follows(ivs[k - 1], ivs[k].startedMS))
  }

  /** Where the next interval has to start for the chain to go on. */
  predicate Continues(ivs: seq<Interval>, start: int) {
    ivs != [] ==> Follows(Last(ivs), start)
  }

  ghost predicate Chained(t: State, now: int) {
    && Chain(t.finished, now)
    && (t.current.Some? ==> t.current.value.startedMS <= now && !Concluded(t.current.value)
                            && Continues(t.finished, t.current.value.startedMS))
    && (t.current.None? ==> Continues(t.finished, now) && (t.finished != [] ==> Concluded(Last(t.finished))))
  }

  lemma ChainGrows(ivs: seq<Interval>, now: int, iv: Interval, later: int)
    requires Chain(ivs, now) && Continues(ivs, iv.startedMS) && iv.startedMS <= iv.endedMS <= later && now <= later
    ensures Chain(ivs + [iv], later)
  {
  }

  lemma CloseChain(t: State, atMS: int, forced: Option<Result>, now: int)
    requires Chained(t, now) && now <= atMS
    ensures var c := CloseInterval(t, atMS, forced);
            Chain(c.finished, atMS) && Continues(c.finished, atMS)
  {
    hide CloseInterval, SameRows, SameTally;
    CloseFrame(t, atMS, forced);
    var c := CloseInterval(t, atMS, forced);
    if t.current.Some? {
      ChainGrows(t.finished, now, Last(c.finished), atMS);
      assert c.finished == t.finished + [Last(c.finished)];
    }
  }

  lemma EnsureChained(cfg: Settings, t: State, orderKey: string, state: string, atMS: int, now: int)
    requires Chained(t, now) && now <= atMS
    ensures Chained(EnsureInterval(cfg, t, orderKey, state, atMS), atMS)
  {
    hide CloseInterval, EnsureInterval, SynthKey;
    EnsureShape(cfg, t, orderKey, state, atMS);
    var forced := if Overdue(cfg, t, atMS) then Some(ForcedResult(t.current.value)) else None;
    CloseChain(t, atMS, forced, now);
  }

  lemma StepChained(cfg: Settings, t: State, i: Input, now: int)
    requires Chained(t, now) && now <= AtMS(i) && !IsStepRun(i)
    ensures Chained(Step(cfg, t, i), AtMS(i))
  {
    hide CloseInterval, EnsureInterval, Record;
    var t1 := Opened(cfg, t, i);
    EnsureChained(cfg, t, KeyOf(i), StateOf(t, i), AtMS(i), now);
    var t2 := Record(cfg, t1, i);
    var verdict := VerdictOf(cfg, t1, i);
    if verdict.Some? {
      CloseChain(t2, AtMS(i), verdict, AtMS(i));
      CloseFrame(t2, AtMS(i), verdict);
    }
  }

  /** A base-path run keeps its intervals in one chain. */
  lemma {:induction false} RunChained(cfg: Settings, t: State, start: int, inputs: seq<Input>)
    requires BasePath(start, inputs) && Chained(t, start)
    ensures Chained(Run(cfg, t, inputs), Now(start, inputs))
  {
    hide Chained, Step;
    if inputs != [] {
      TimeOrderedFront(start, inputs);
      RunChained(cfg, t, start, Front(inputs));
      StepChained(cfg, Run(cfg, t, Front(inputs)), Last(inputs), Now(start, Front(inputs)));
    }
  }

  // ---------------------------------------------------------------------------
  // The emitted intervals
  // ---------------------------------------------------------------------------

  /** The intervals that were not dropped. */
  function Emitted(ivs: seq<Interval>): seq<Interval> {
    if ivs == [] then []
    else Emitted(Front(ivs)) + if Last(ivs).startedMS < Last(ivs).endedMS then [Last(ivs)] else []
  }

  /** A verdict was reached at this instant. */
  ghost predicate VerdictAt(ivs: seq<Interval>, ms: int) {
    exists m | 0 <= m < |ivs| :: ivs[m].endedMS == ms && Concluded(ivs[m])
  }

  /** From an emitted interval to the next start there is no gap, unless a verdict was reached where it begins. */
  ghost predicate Bridges(ivs: seq<Interval>, iv: Interval, nextStart: int) {
    iv.endedMS <= nextStart && (iv.endedMS == nextStart || VerdictAt(ivs, iv.endedMS))
  }

  lemma BridgesMore(ivs: seq<Interval>, iv: Interval, nextStart: int, more: Interval)
    requires Bridges(ivs, iv, nextStart)
    ensures Bridges(ivs + [more], iv, nextStart)
  {
    if VerdictAt(ivs, iv.endedMS) {
      var m :| 0 <= m < |ivs| && ivs[m].endedMS == iv.endedMS && Concluded(ivs[m]);
      assert (ivs + [more])[m] == ivs[m];
    }
  }

  lemma {:induction false} LastEmittedBridges(ivs: seq<Interval>, now: int, nextStart: int)
    requires Chain(ivs, now) && Continues(ivs, nextStart) && Emitted(ivs) != []
    ensures Bridges(ivs, Last(Emitted(ivs)), nextStart)
  {
    hide Bridges;
    var iv := Last(ivs);
    assert ivs == Front(ivs) + [iv];
    if iv.startedMS < iv.endedMS {
      ItselfBridges(ivs, nextStart);
    } else {
      LastEmittedBridges(Front(ivs), now, iv.startedMS);
      BridgesMore(Front(ivs), Last(Emitted(ivs)), iv.startedMS, iv);
      DroppedBridges(ivs, Last(Emitted(ivs)), nextStart);
    }
  }

  lemma ItselfBridges(ivs: seq<Interval>, nextStart: int)
    requires ivs != [] && Continues(ivs, nextStart)
    ensures Bridges(ivs, Last(ivs), nextStart)
  {
  }

  lemma DroppedBridges(ivs: seq<Interval>, iv: Interval, nextStart: int)
    requires ivs != [] && Continues(ivs, nextStart) && Last(ivs).startedMS == Last(ivs).endedMS
    requires Bridges(ivs, iv, Last(ivs).startedMS)
    ensures Bridges(ivs, iv, nextStart)
  {
  }

  ghost predicate EmittedInOrder(ivs: seq<Interval>) {
    var e := Emitted(ivs);
    && (forall k | 0 <= k < |e| :: e[k].startedMS < e[k].endedMS)
    && (forall k | 0 < k < |e| :: Bridges(ivs, e[k - 1], e[k].startedMS))
  }

  /** Emitted intervals have positive length and come in order; consecutive ones abut, unless a completion
      marker or a production fault closed an interval at the instant where the gap begins. */
  lemma {:induction false} EmittedTimeline(ivs: seq<Interval>, now: int)
    requires Chain(ivs, now)
    ensures EmittedInOrder(ivs)
  {
    if ivs != [] {
      var iv, front := Last(ivs), Front(ivs);
      assert ivs == front + [iv];
      EmittedTimeline(front, now);
      if Emitted(front) != [] {
        LastEmittedBridges(front, now, iv.startedMS);
      }
      EmittedMore(front, iv);
    }
  }

  lemma EmittedMore(front: seq<Interval>, iv: Interval)
    requires EmittedInOrder(front)
    requires Emitted(front) != [] ==> Bridges(front, Last(Emitted(front)), iv.startedMS)
    ensures EmittedInOrder(front + [iv])
  {
    hide Bridges;
    var e, ivs := Emitted(front), front + [iv];
    assert Front(ivs) == front && Last(ivs) == iv;
    forall k | 0 < k < |Emitted(ivs)| ensures Bridges(ivs, Emitted(ivs)[k - 1], Emitted(ivs)[k].startedMS) {
      BridgesMore(front, Emitted(ivs)[k - 1], Emitted(ivs)[k].startedMS, iv);
    }
  }

  /** Different emitted intervals do not overlap. */
  lemma {:induction false} EmittedApart(ivs: seq<Interval>, now: int, i: nat, j: nat)
    requires Chain(ivs, now) && i < j < |Emitted(ivs)|
    ensures Emitted(ivs)[i].startedMS < Emitted(ivs)[i].endedMS <= Emitted(ivs)[j].startedMS
    decreases j
  {
    EmittedTimeline(ivs, now);
    if i + 1 < j {
      EmittedApart(ivs, now, i, j - 1);
    }
  }

  /** As long as nothing is handed over, the queue of closed intervals holds the emitted ones. */
  lemma CloseQueues(t: State, atMS: int, forced: Option<Result>)
    requires t.closed == Emitted(t.finished)
    ensures var c := CloseInterval(t, atMS, forced); c.closed == Emitted(c.finished)
  {
    hide CloseInterval;
    CloseFrame(t, atMS, forced);
  }

  lemma StepQueues(cfg: Settings, t: State, i: Input)
    requires t.closed == Emitted(t.finished)
    ensures Step(cfg, t, i).closed == Emitted(Step(cfg, t, i).finished)
  {
    hide CloseInterval, EnsureInterval, Record, SynthKey, VerdictOf;
    EnsureShape(cfg, t, KeyOf(i), StateOf(t, i), OpenAtMS(i));
    var forced := if Overdue(cfg, t, OpenAtMS(i)) then Some(ForcedResult(t.current.value)) else None;
    CloseQueues(t, OpenAtMS(i), forced);
    var t1 := Opened(cfg, t, i);
    CloseQueues(Record(cfg, t1, i), AtMS(i), VerdictOf(cfg, t1, i));
  }

  lemma {:induction false} RunQueues(cfg: Settings, t: State, inputs: seq<Input>)
    requires t.closed == Emitted(t.finished)
    ensures Run(cfg, t, inputs).closed == Emitted(Run(cfg, t, inputs).finished)
  {
    hide Step;
    if inputs != [] {
      RunQueues(cfg, t, Front(inputs));
      StepQueues(cfg, Run(cfg, t, Front(inputs)), Last(inputs));
    }
  }

  lemma InitialChained(now: int)
    ensures Chained(INITIAL, now)
  {
  }

  /** The intervals a base-path run and its final flush hand over form one timeline. */
  lemma RunTimeline(cfg: Settings, start: int, inputs: seq<Input>, closeAt: int)
    requires BasePath(start, inputs) && Now(start, inputs) <= closeAt
    ensures var f := WholeRun(cfg, inputs, closeAt);
            f.current.None? && f.closed == Emitted(f.finished) && Chain(f.finished, closeAt + 1)
            && EmittedInOrder(f.finished)
  {
    hide Chain, EmittedInOrder, Run, CloseInterval, Step;
    var t := Run(cfg, INITIAL, inputs);
    InitialChained(start);
    RunChained(cfg, INITIAL, start, inputs);
    RunQueues(cfg, INITIAL, inputs);
    FlushIsClose(cfg, inputs, closeAt);
    CloseFrame(t, FlushAt(t, closeAt), FlushResult(t));
    CloseQueues(t, FlushAt(t, closeAt), FlushResult(t));
    CloseChain(t, FlushAt(t, closeAt), FlushResult(t), Now(start, inputs));
    ChainLater(WholeRun(cfg, inputs, closeAt).finished, FlushAt(t, closeAt), closeAt + 1);
    EmittedTimeline(WholeRun(cfg, inputs, closeAt).finished, closeAt + 1);
  }

  lemma ChainLater(ivs: seq<Interval>, now: int, later: int)
    requires Chain(ivs, now) && now <= later
    ensures Chain(ivs, later)
  {
  }
}
