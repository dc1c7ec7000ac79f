/** State spans (cmd/projector/tracker.go): positive and pairwise disjoint on both paths. */
module Spans {
  import opened Source
  import opened Intervals
  import opened TrackerSpec
  import opened Frames
  import opened Buffers
  import opened Timeline

  function SpansOf(iv: Interval): seq<OutSpan> {
    iv.stateDurations
  }

  /** Spans of positive length, one after the other. */
  ghost predicate Disjoint(s: seq<OutSpan>) {
    && (forall k | 0 <= k < |s| :: s[k].enteredAtMS < s[k].exitedAtMS)
    && (forall k | 0 <= k < |s| :: s[k].durationMS == s[k].exitedAtMS - s[k].enteredAtMS)
    && (forall j, k | 0 <= j < k < |s| :: s[j].exitedAtMS <= s[k].enteredAtMS)
  }

  ghost predicate EndBy(s: seq<OutSpan>, ms: int) {
    forall k | 0 <= k < |s| :: s[k].exitedAtMS <= ms
  }

  /** The spans of all intervals are disjoint and past; the open span starts after them. */
  ghost predicate SpansInOrder(t: State, now: int) {
    var s := All(SpansOf, t);
    Disjoint(s) && EndBy(s, now)
    && (t.openState.Some? ==> EndBy(s, t.openState.value.enteredMS) && t.openState.value.enteredMS <= now)
  }

  lemma CloseSpanInOrder(t: State, atMS: int, reason: string, now: int)
    requires SpansInOrder(t, now) && atMS <= now
    ensures SpansInOrder(CloseStateSpan(t, atMS, reason), now)
  {
    var r := CloseStateSpan(t, atMS, reason);
    if r != t {
      var s := All(SpansOf, t);
      assert All(SpansOf, r) == s + [Last(SpansOf(r.current.value))];
    }
  }

  lemma DwellsKeepSpans(t: State, atMS: int)
    ensures All(SpansOf, CloseOpenDwells(t, atMS)) == All(SpansOf, t)
  {
    hide CloseOpenDwells;
  }

  lemma CloseInOrder(t: State, atMS: int, forced: Option<Result>, now: int)
    requires SpansInOrder(t, now) && atMS <= now
    ensures SpansInOrder(CloseInterval(t, atMS, forced), now)
  {
    hide SpansInOrder, CloseOpenDwells, CloseStateSpan, Sealed;
    if t.current.Some? {
      var t1 := CloseOpenDwells(t, atMS);
      DwellsKeepSpans(t, atMS);
      SameSpans(t, t1, now);
      CloseSpanInOrder(t1, atMS, "interval_end", now);
      var t2 := CloseStateSpan(t1, atMS, "interval_end");
      SealKeepsSpans(t2, CloseInterval(t, atMS, forced), atMS, forced);
      SameSpans(t2, CloseInterval(t, atMS, forced), now);
    }
  }

  lemma SealKeepsSpans(t: State, c: State, atMS: int, forced: Option<Result>)
    requires t.current.Some? && c.current.None? && c.finished == t.finished + [Sealed(t.current.value, atMS, forced)]
    ensures All(SpansOf, c) == All(SpansOf, t)
  {
  }

  lemma SameSpans(t: State, r: State, now: int)
    requires SpansInOrder(t, now) && r.openState == t.openState && All(SpansOf, r) == All(SpansOf, t)
    ensures SpansInOrder(r, now)
  {
  }

  lemma OpenInOrder(cfg: Settings, t: State, i: Input, now: int)
    requires SpansInOrder(t, now) && OpenAtMS(i) <= now
    ensures SpansInOrder(Opened(cfg, t, i), now)
  {
    hide CloseInterval, EnsureInterval, SynthKey, SpansInOrder;
    EnsureShape(cfg, t, KeyOf(i), StateOf(t, i), OpenAtMS(i));
    var forced := if Overdue(cfg, t, OpenAtMS(i)) then Some(ForcedResult(t.current.value)) else None;
    var c := CloseInterval(t, OpenAtMS(i), forced);
    CloseInOrder(t, OpenAtMS(i), forced, now);
    if Opened(cfg, t, i) != t {
      CloseFrame(t, OpenAtMS(i), forced);
      SameSpans(c, Fresh(c, KeyOf(i), StateOf(t, i), OpenAtMS(i)), now);
    }
  }

  lemma TrackInOrder(t: State, e: FsmEvent, now: int)
    requires SpansInOrder(t, now)
    ensures SpansInOrder(TrackStateSpan(t, e, now), now)
  {
    CloseSpanInOrder(t, now, e.kind, now);
  }

  lemma RecordInOrder(cfg: Settings, t: State, i: Input, now: int)
    requires t.current.Some? && SpansInOrder(t, now) && now == AtMS(i)
    ensures SpansInOrder(Record(cfg, t, i), now)
  {
    hide SpansInOrder;
    if i.Apply? && i.row.EventRow? {
      var e := i.row.event;
      var t1 := t.(current := Some(CountIn(t.current.value, e)));
      SameSpans(t, t1, now);
      TrackInOrder(t1, e, now);
      EventKeepsSpans(cfg, t1, e, now);
      SameSpans(TrackStateSpan(t1, e, now), RecordEvent(cfg, t, e, now), now);
    } else {
      OthersKeepSpans(cfg, t, i);
      SameSpans(t, Record(cfg, t, i), now);
    }
  }

  lemma EventKeepsSpans(cfg: Settings, t: State, e: FsmEvent, atMS: int)
    requires t.current.Some?
    ensures var t2 := TrackStateSpan(t, e, atMS);
            var t3 := if cfg.useStepRuns then t2 else TrackDwell(t2, e, atMS);
            All(SpansOf, AddEvent(t3, e, atMS)) == All(SpansOf, t2) && AddEvent(t3, e, atMS).openState == t2.openState
  {
    hide TrackStateSpan, TrackDwell;
  }

  lemma OthersKeepSpans(cfg: Settings, t: State, i: Input)
    requires t.current.Some? && !(i.Apply? && i.row.EventRow?)
    ensures All(SpansOf, Record(cfg, t, i)) == All(SpansOf, t) && Record(cfg, t, i).openState == t.openState
  {
    hide LedgerFaultKey, StepRunFaultKey, RecordLedgerFault, ApplyDoorSignals, StepRunEmits, StepRunFaultCounts,
      StepRunDwell;
  }

  lemma StepInOrder(cfg: Settings, t: State, i: Input, now: int)
    requires SpansInOrder(t, now) && now <= AtMS(i) && OpenAtMS(i) <= AtMS(i)
    ensures SpansInOrder(Step(cfg, t, i), AtMS(i))
  {
    hide CloseInterval, Record, Opened, VerdictOf;
    assert SpansInOrder(t, AtMS(i));
    OpenInOrder(cfg, t, i, AtMS(i));
    var t1 := Opened(cfg, t, i);
    RecordInOrder(cfg, t1, i, AtMS(i));
    CloseInOrder(Record(cfg, t1, i), AtMS(i), VerdictOf(cfg, t1, i), AtMS(i));
  }

  /** On both paths, all state spans ever produced are positive and pairwise disjoint. */
  lemma {:induction false} RunInOrder(cfg: Settings, t: State, start: int, inputs: seq<Input>)
    requires TimeOrdered(start, inputs) && SpansInOrder(t, start)
    ensures SpansInOrder(Run(cfg, t, inputs), Now(start, inputs))
  {
    hide Step, SpansInOrder;
    if inputs != [] {
      TimeOrderedFront(start, inputs);
      RunInOrder(cfg, t, start, Front(inputs));
      StepInOrder(cfg, Run(cfg, t, Front(inputs)), Last(inputs), Now(start, Front(inputs)));
    }
  }

  lemma InitialInOrder(start: int)
    ensures SpansInOrder(INITIAL, start)
  {
  }

  // ---------------------------------------------------------------------------
  // The spans that reach the replica
  // ---------------------------------------------------------------------------

  lemma {:induction false} EmittedSpansDisjoint(ivs: seq<Interval>)
    requires Disjoint(Flat(SpansOf, ivs))
    ensures Disjoint(Flat(SpansOf, Emitted(ivs)))
    ensures forall s | s in Flat(SpansOf, Emitted(ivs)) :: s in Flat(SpansOf, ivs)
  {
    if ivs != [] {
      var a, b := Flat(SpansOf, Front(ivs)), SpansOf(Last(ivs));
      assert Disjoint(a) by {
        assert forall k | 0 <= k < |a| :: a[k] == (a + b)[k];
      }
      EmittedSpansDisjoint(Front(ivs));
      var some := Flat(SpansOf, Emitted(Front(ivs)));
      if Last(ivs).startedMS < Last(ivs).endedMS {
        assert Front(Emitted(ivs)) == Emitted(Front(ivs));
        assert Flat(SpansOf, Emitted(ivs)) == some + b;
        JoinDisjoint(some, a, b);
      } else {
        assert Emitted(ivs) == Emitted(Front(ivs));
      }
    }
  }

  lemma JoinDisjoint(some: seq<OutSpan>, a: seq<OutSpan>, b: seq<OutSpan>)
    requires Disjoint(some) && Disjoint(a + b) && forall s | s in some :: s in a
    ensures Disjoint(some + b)
  {
    forall j, k | 0 <= j < |some| && 0 <= k < |b| ensures some[j].exitedAtMS <= b[k].enteredAtMS {
      assert some[j] in a;
      var m :| 0 <= m < |a| && a[m] == some[j];
      assert (a + b)[m] == a[m] && (a + b)[|a| + k] == b[k];
    }
    assert forall k | 0 <= k < |b| :: b[k] == (a + b)[|a| + k];
  }

  /** On both paths the spans of all intervals, dropped ones included, are positive and pairwise disjoint. */
  lemma FinishedDisjoint(cfg: Settings, start: int, inputs: seq<Input>, closeAt: int)
    requires TimeOrdered(start, inputs) && Now(start, inputs) <= closeAt
    ensures Disjoint(Flat(SpansOf, WholeRun(cfg, inputs, closeAt).finished))
  {
    hide Run, SpansInOrder, CloseInterval, Step, Disjoint;
    var t := Run(cfg, INITIAL, inputs);
    var f := WholeRun(cfg, inputs, closeAt);
    InitialInOrder(start);
    RunInOrder(cfg, INITIAL, start, inputs);
    FlushIsClose(cfg, inputs, closeAt);
    var end := FlushAt(t, closeAt);
    var later := if end < closeAt then closeAt else end;
    InOrderLater(t, Now(start, inputs), later);
    CloseInOrder(t, end, FlushResult(t), later);
    FinishedSpans(f, later, t, end);
  }

  /** On both paths the spans of the emitted intervals are positive and pairwise disjoint. */
  lemma WholeRunSpans(cfg: Settings, start: int, inputs: seq<Input>, closeAt: int)
    requires TimeOrdered(start, inputs) && Now(start, inputs) <= closeAt
    ensures Disjoint(Flat(SpansOf, WholeRun(cfg, inputs, closeAt).closed))
  {
    hide Run, CloseInterval, Step, Disjoint;
    var t := Run(cfg, INITIAL, inputs);
    FinishedDisjoint(cfg, start, inputs, closeAt);
    FlushIsClose(cfg, inputs, closeAt);
    RunQueues(cfg, INITIAL, inputs);
    CloseQueues(t, FlushAt(t, closeAt), FlushResult(t));
    EmittedSpansDisjoint(WholeRun(cfg, inputs, closeAt).finished);
  }

  lemma FinishedSpans(f: State, now: int, t: State, end: int)
    requires SpansInOrder(f, now) && f == CloseInterval(t, end, FlushResult(t))
    ensures Disjoint(Flat(SpansOf, f.finished))
  {
    hide CloseInterval, SameRows, SameTally;
    CloseFrame(t, end, FlushResult(t));
    assert All(SpansOf, f) == Flat(SpansOf, f.finished);
  }

  lemma InOrderLater(t: State, now: int, later: int)
    requires SpansInOrder(t, now) && now <= later
    ensures SpansInOrder(t, later)
  {
  }
}
