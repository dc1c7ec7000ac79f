/** Child rows on the step-run path (cmd/projector/tracker.go): exactly when one of them is later than its cycle. */
module StepRunPath {
  import opened Source
  import opened Intervals
  import opened TrackerSpec
  import opened Frames
  import opened ChildOrder

  /** A replicated child row is later than an instant. */
  ghost predicate LaterThan(iv: Interval, ms: int) {
    exists c, k: nat :: c != Events && k < |Stamps(c, iv)| && ms < Stamps(c, iv)[k]
  }

  /** A replicated child row is later than its cycle. */
  ghost predicate Late(iv: Interval) {
    LaterThan(iv, iv.endedMS)
  }

  lemma LaterStays(a: Interval, b: Interval, atMS: int, ms: int)
    requires GrowsAt(a, b, atMS) && atMS <= ms
    ensures LaterThan(b, ms) <==> LaterThan(a, ms)
  {
    hide Stamps;
    if LaterThan(a, ms) {
      var c, k: nat :| c != Events && k < |Stamps(c, a)| && ms < Stamps(c, a)[k];
      assert Appends(Stamps(c, a), Stamps(c, b), atMS);
      assert Stamps(c, b)[k] == Stamps(c, a)[k];
    }
    if LaterThan(b, ms) {
      var c, k: nat :| c != Events && k < |Stamps(c, b)| && ms < Stamps(c, b)[k];
      assert Appends(Stamps(c, a), Stamps(c, b), atMS);
      assert k < |Stamps(c, a)| && Stamps(c, a)[k] == Stamps(c, b)[k];
    }
  }

  lemma LaterThanEarlier(iv: Interval, now: int, ms: int)
    requires !LaterThan(iv, now) && now <= ms
    ensures !LaterThan(iv, ms)
  {
  }

  /** A step run closes the open interval at its own start, behind a row that was filed already. */
  ghost predicate ClosesBehind(cfg: Settings, t: State, i: Input) {
    && IsStepRun(i) && t.current.Some?
    && (!Serves(t, KeyOf(i), StateOf(t, i)) || Overdue(cfg, t, OpenAtMS(i)))
    && t.current.value.startedMS < OpenAtMS(i) && LaterThan(t.current.value, OpenAtMS(i))
  }

  ghost predicate SomeLate(ivs: seq<Interval>, n: nat) {
    exists k :: n <= k < |ivs| && Late(ivs[k])
  }

  /** What closing adds to the queue, and whether it is late. */
  lemma CloseLate(t: State, atMS: int, forced: Option<Result>)
    ensures var c := CloseInterval(t, atMS, forced);
            && t.closed <= c.closed
            && (SomeLate(c.closed, |t.closed|) <==>
                  t.current.Some? && t.current.value.startedMS < atMS && LaterThan(t.current.value, atMS))
  {
    hide CloseInterval, SameRows, SameTally, LaterThan, GrowsAt;
    CloseFrame(t, atMS, forced);
    if t.current.Some? {
      var c := CloseInterval(t, atMS, forced);
      CloseGrows(t, atMS, forced);
      LaterStays(t.current.value, Last(c.finished), atMS, atMS);
      if t.current.value.startedMS < atMS {
        assert c.closed[|t.closed|] == Last(c.finished);
      }
    }
  }

  lemma SomeLateJoins(a: seq<Interval>, b: seq<Interval>, c: seq<Interval>)
    requires a <= b <= c
    ensures SomeLate(c, |a|) <==> SomeLate(b, |a|) || SomeLate(c, |b|)
  {
    hide Late;
    if SomeLate(b, |a|) {
      var k :| |a| <= k < |b| && Late(b[k]);
      assert c[k] == b[k];
    }
    if SomeLate(c, |a|) {
      var k :| |a| <= k < |c| && Late(c[k]);
      assert k < |b| ==> b[k] == c[k];
    }
  }

  /** No row of the open interval is later than now. */
  ghost predicate FiledBy(t: State, now: int) {
    t.current.Some? ==> !LaterThan(t.current.value, now)
  }

  lemma OpenLate(cfg: Settings, t: State, i: Input, now: int)
    requires FiledBy(t, now) && now <= AtMS(i) && OpenAtMS(i) <= AtMS(i)
    ensures var t1 := Opened(cfg, t, i);
            t.closed <= t1.closed && (SomeLate(t1.closed, |t.closed|) <==> ClosesBehind(cfg, t, i))
            && FiledBy(t1, AtMS(i))
  {
    hide CloseInterval, EnsureInterval, LaterThan, SynthKey, Late;
    var at := OpenAtMS(i);
    EnsureShape(cfg, t, KeyOf(i), StateOf(t, i), at);
    var forced := if Overdue(cfg, t, at) then Some(ForcedResult(t.current.value)) else None;
    CloseLate(t, at, forced);
    if t.current.Some? {
      LaterThanEarlier(t.current.value, now, AtMS(i));
    }
    var r := Opened(cfg, t, i).current.value;
    NothingFiled(r.orderKey, r.isProduction, at, r.result, AtMS(i));
  }

  lemma NothingFiled(k: string, p: bool, at: int, r: Result, ms: int)
    ensures !LaterThan(NewInterval(k, p, at, r), ms)
  {
  }

  /** With everything filed by now, an input puts an interval with a late row in the queue exactly when it is a step run
      that closes the open interval behind such a row. */
  lemma StepRunClosesBehind(cfg: Settings, t: State, i: Input, now: int)
    requires FiledBy(t, now) && now <= AtMS(i) && OpenAtMS(i) <= AtMS(i)
    ensures var s := Step(cfg, t, i);
            t.closed <= s.closed && (SomeLate(s.closed, |t.closed|) <==> ClosesBehind(cfg, t, i)) && FiledBy(s, AtMS(i))
  {
    hide CloseInterval, Opened, Record, VerdictOf, LaterThan, Late, GrowsAt, SameRows, SameTally, ClosesBehind;
    var t1 := Opened(cfg, t, i);
    var t2 := Record(cfg, t1, i);
    OpenLate(cfg, t, i, now);
    RecordGrows(cfg, t1, i);
    LaterStays(t1.current.value, t2.current.value, AtMS(i), AtMS(i));
    CloseLate(t2, AtMS(i), VerdictOf(cfg, t1, i));
    CloseFrame(t2, AtMS(i), VerdictOf(cfg, t1, i));
    SomeLateJoins(t.closed, t1.closed, Step(cfg, t, i).closed);
  }

  // ---------------------------------------------------------------------------
  // Whole runs
  // ---------------------------------------------------------------------------

  ghost predicate BehindAt(cfg: Settings, inputs: seq<Input>, k: nat)
    requires k < |inputs|
  {
    ClosesBehind(cfg, Run(cfg, INITIAL, inputs[..k]), inputs[k])
  }

  ghost predicate NeverBehind(cfg: Settings, inputs: seq<Input>) {
    forall k | 0 <= k < |inputs| :: !BehindAt(cfg, inputs, k)
  }

  lemma NeverBehindMore(cfg: Settings, inputs: seq<Input>, i: Input)
    ensures NeverBehind(cfg, inputs + [i])
       <==> NeverBehind(cfg, inputs) && !ClosesBehind(cfg, Run(cfg, INITIAL, inputs), i)
  {
    hide Run, ClosesBehind;
    var more := inputs + [i];
    assert more[..|inputs|] == inputs && more[|inputs|] == i;
    forall k | 0 <= k < |inputs| ensures BehindAt(cfg, more, k) <==> BehindAt(cfg, inputs, k) {
      assert more[..k] == inputs[..k];
    }
    assert BehindAt(cfg, more, |inputs|) <==> ClosesBehind(cfg, Run(cfg, INITIAL, inputs), i);
  }

  lemma {:induction false} RunLate(cfg: Settings, start: int, inputs: seq<Input>)
    requires TimeOrdered(start, inputs)
    ensures var t := Run(cfg, INITIAL, inputs);
            (SomeLate(t.closed, 0) <==> !NeverBehind(cfg, inputs)) && FiledBy(t, Now(start, inputs))
  {
    hide Step, Late, ClosesBehind, NeverBehind, FiledBy;
    if inputs == [] {
      NothingLate(cfg, start);
    } else {
      var front, i := Front(inputs), Last(inputs);
      assert inputs == front + [i];
      TimeOrderedFront(start, inputs);
      RunLate(cfg, start, front);
      var t := Run(cfg, INITIAL, front);
      StepRunClosesBehind(cfg, t, i, Now(start, front));
      SomeLateJoins([], t.closed, Step(cfg, t, i).closed);
      NeverBehindMore(cfg, front, i);
    }
  }

  lemma NothingLate(cfg: Settings, start: int)
    ensures !SomeLate(INITIAL.closed, 0) && NeverBehind(cfg, []) && FiledBy(INITIAL, start)
  {
  }

  /** On both paths, no interval a run and its flush emit has a child row later than its cycle, exactly when no step run
      closes the open interval behind a row that was filed already. */
  lemma NoChildIsLaterExactly(cfg: Settings, start: int, inputs: seq<Input>, closeAt: int)
    requires TimeOrdered(start, inputs) && Now(start, inputs) <= closeAt
    ensures (forall iv | iv in WholeRun(cfg, inputs, closeAt).closed :: !Late(iv)) <==> NeverBehind(cfg, inputs)
  {
    hide Run, CloseInterval, Late, NeverBehind, LaterThan;
    var t, f := Run(cfg, INITIAL, inputs), WholeRun(cfg, inputs, closeAt);
    RunLate(cfg, start, inputs);
    FlushIsClose(cfg, inputs, closeAt);
    var at := FlushAt(t, closeAt);
    if t.current.Some? {
      LaterThanEarlier(t.current.value, Now(start, inputs), closeAt);
      LaterThanEarlier(t.current.value, closeAt, if closeAt < at then at else closeAt);
    }
    CloseLate(t, at, FlushResult(t));
    SomeLateJoins([], t.closed, f.closed);
    assert SomeLate(f.closed, 0) <==> exists iv | iv in f.closed :: Late(iv) by {
      MemberLate(f.closed);
    }
  }

  lemma MemberLate(ivs: seq<Interval>)
    ensures SomeLate(ivs, 0) <==> exists iv | iv in ivs :: Late(iv)
  {
    hide Late;
  }

  // ---------------------------------------------------------------------------
  // A run that shows it
  // ---------------------------------------------------------------------------

  const IDLE_THEN_CLEAN: seq<Input> :=
    [Apply(EventRow(FsmEvent(1, 10_000_000, "state_transition", "HomeIdle", None, None, "", ""))),
     Apply(ToggleRow(Toggle(1, 100_000_000, "X1.0", 0, 1, "HomeIdle", None, "", ""))),
     Apply(StepRunRow(StepRun(1, 50_000_000, 150_000_000, "Maintenance", 1, "", "", "", "")))]

  lemma FirstOpens(cfg: Settings)
    ensures var t := Run(cfg, INITIAL, IDLE_THEN_CLEAN[..1]);
            t.current.Some? && t.current.value.startedMS == 10 && !t.current.value.isProduction
            && t.current.value.result == Idle
  {
    hide CloseInterval, EnsureInterval, SynthKey, RecordEvent;
    assert Front(IDLE_THEN_CLEAN[..1]) == [] && Last(IDLE_THEN_CLEAN[..1]) == IDLE_THEN_CLEAN[0];
    RunUnfold(cfg, INITIAL, IDLE_THEN_CLEAN[..1]);
    EnsureShape(cfg, INITIAL, "", HOME_IDLE, 10);
    CloseFrame(INITIAL, 10, None);
  }

  lemma ToggleIsFiled(cfg: Settings)
    requires cfg.maxIntervalMS == 900_000
    ensures var t := Run(cfg, INITIAL, IDLE_THEN_CLEAN[..2]);
            t.current.Some? && t.current.value.startedMS == 10 && !t.current.value.isProduction
            && t.current.value.result == Idle && LaterThan(t.current.value, 50)
  {
    hide CloseInterval, EnsureInterval, Run, RecordEvent;
    FirstOpens(cfg);
    var t := Run(cfg, INITIAL, IDLE_THEN_CLEAN[..1]);
    assert Front(IDLE_THEN_CLEAN[..2]) == IDLE_THEN_CLEAN[..1] && Last(IDLE_THEN_CLEAN[..2]) == IDLE_THEN_CLEAN[1];
    RunUnfold(cfg, INITIAL, IDLE_THEN_CLEAN[..2]);
    EnsureShape(cfg, t, "", HOME_IDLE, 100);
    var iv := Run(cfg, INITIAL, IDLE_THEN_CLEAN[..2]).current.value;
    assert Last(Stamps(Toggles, iv)) == 100;
  }

  /** An idle event at 10 ms, a toggle at 100 ms and a Maintenance step run from 50 to 150 ms: the idle interval ends at
      50 ms with the toggle in it. */
  lemma CleaningClosesBehind(cfg: Settings, closeAt: int)
    requires cfg.maxIntervalMS == 900_000 && closeAt >= 150
    ensures TimeOrdered(0, IDLE_THEN_CLEAN)
    ensures exists iv | iv in WholeRun(cfg, IDLE_THEN_CLEAN, closeAt).closed :: Late(iv)
  {
    hide Run, WholeRun, Late, LaterThan;
    ToggleIsFiled(cfg);
    assert BehindAt(cfg, IDLE_THEN_CLEAN, 2);
    NoChildIsLaterExactly(cfg, 0, IDLE_THEN_CLEAN, closeAt);
  }
}
