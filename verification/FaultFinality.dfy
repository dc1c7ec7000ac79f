/** When the fault count of an emitted hour row is final (cmd/projector/rollup.go, cmd/projector/writer.go). */
module FaultFinality {
  import opened Source
  import opened Intervals
  import opened TrackerSpec
  import opened Frames
  import opened Replica
  import opened Writers
  import opened Additivity
  import opened Finality
  import Buffers
  import Calendar
  import ChildOrder

  // ---------------------------------------------------------------------------
  // What inserting faults adds to a window
  // ---------------------------------------------------------------------------

  predicate InWindow(f: OutFault, lo: int, hi: int) {
    lo <= f.raisedAtMS < hi
  }

  ghost predicate HasKey(fs: seq<OutFault>, key: string) {
    exists j :: 0 <= j < |fs| && fs[j].faultKey == key
  }

  lemma HasKeyMore(fs: seq<OutFault>, f: OutFault, key: string)
    ensures HasKey(fs + [f], key) <==> HasKey(fs, key) || f.faultKey == key
  {
    var more := fs + [f];
    assert more[|fs|] == f && forall k | 0 <= k < |fs| :: more[k] == fs[k];
  }

  lemma HasFaultMore(faults: seq<Stored<OutFault>>, f: Stored<OutFault>, key: string)
    ensures HasFault(faults + [f], key) <==> HasFault(faults, key) || f.row.faultKey == key
  {
    var more := faults + [f];
    assert more[|faults|] == f && forall k | 0 <= k < |faults| :: more[k] == faults[k];
  }

  lemma {:induction false} InsertedKeys(faults: seq<Stored<OutFault>>, fs: seq<OutFault>, key: string)
    ensures HasFault(InsertFaults(faults, fs), key) <==> HasFault(faults, key) || HasKey(fs, key)
  {
    hide HasFault, HasKey, Calendar.EventTS, Calendar.DateUTC;
    if fs == [] {
      NoKey(key);
    } else {
      InsertedKeys(faults, Front(fs), key);
      assert fs == Front(fs) + [Last(fs)];
      HasKeyMore(Front(fs), Last(fs), key);
      HasFaultMore(InsertFaults(faults, Front(fs)), StoreFault(Last(fs)), key);
    }
  }

  lemma NoKey(key: string)
    ensures !HasKey([], key)
  {
  }

  /** Fault k of a buffer is stored when the buffer is written: neither the table nor an earlier fault has its key. */
  ghost predicate IsStored(faults: seq<Stored<OutFault>>, fs: seq<OutFault>, k: nat)
    requires k < |fs|
  {
    !HasFault(faults, fs[k].faultKey) && !HasKey(fs[..k], fs[k].faultKey)
  }

  ghost predicate AddsTo(faults: seq<Stored<OutFault>>, fs: seq<OutFault>, lo: int, hi: int) {
    exists k: nat :: k < |fs| && InWindow(fs[k], lo, hi) && IsStored(faults, fs, k)
  }

  lemma AddsMore(faults: seq<Stored<OutFault>>, fs: seq<OutFault>, f: OutFault, lo: int, hi: int)
    ensures AddsTo(faults, fs + [f], lo, hi)
       <==> AddsTo(faults, fs, lo, hi)
            || (InWindow(f, lo, hi) && !HasFault(faults, f.faultKey) && !HasKey(fs, f.faultKey))
  {
    hide HasFault, HasKey, InWindow;
    var more := fs + [f];
    assert more[..|fs|] == fs && more[|fs|] == f;
    forall k: nat | k < |fs| ensures IsStored(faults, more, k) <==> IsStored(faults, fs, k) {
      assert more[..k] == fs[..k] && more[k] == fs[k];
    }
    assert IsStored(faults, more, |fs|) <==> !HasFault(faults, f.faultKey) && !HasKey(fs, f.faultKey);
    if AddsTo(faults, fs, lo, hi) {
      var k: nat :| k < |fs| && InWindow(fs[k], lo, hi) && IsStored(faults, fs, k);
      assert more[k] == fs[k] && IsStored(faults, more, k);
    }
    if AddsTo(faults, more, lo, hi) {
      var k: nat :| k < |more| && InWindow(more[k], lo, hi) && IsStored(faults, more, k);
      assert k < |fs| ==> more[k] == fs[k];
    }
  }

  /** Writing a buffer never lowers a window's count, and raises it exactly when it stores a fault in the window. */
  lemma {:induction false} InsertCounts(faults: seq<Stored<OutFault>>, fs: seq<OutFault>, lo: int, hi: int)
    ensures var a, b := FaultCount(faults, lo, hi), FaultCount(InsertFaults(faults, fs), lo, hi);
            a <= b && (a < b <==> AddsTo(faults, fs, lo, hi))
  {
    hide HasFault, HasKey, AddsTo, Calendar.EventTS, Calendar.DateUTC, FaultCount;
    if fs == [] {
      NothingAdds(faults, lo, hi);
    } else {
      var front, f := Front(fs), Last(fs);
      assert fs == front + [f];
      InsertCounts(faults, front, lo, hi);
      AddsMore(faults, front, f, lo, hi);
      InsertedKeys(faults, front, f.faultKey);
      OneMoreCounts(InsertFaults(faults, front), StoreFault(f), lo, hi);
    }
  }

  lemma NothingAdds(faults: seq<Stored<OutFault>>, lo: int, hi: int)
    ensures !AddsTo(faults, [], lo, hi)
  {
  }

  lemma OneMoreCounts(faults: seq<Stored<OutFault>>, f: Stored<OutFault>, lo: int, hi: int)
    ensures FaultCount(faults + [f], lo, hi)
         == FaultCount(faults, lo, hi) + if InWindow(f.row, lo, hi) then 1 else 0
  {
    assert Front(faults + [f]) == faults;
  }

  // ---------------------------------------------------------------------------
  // Intervals closed after the row was emitted
  // ---------------------------------------------------------------------------

  /** The interval's faults were raised no earlier than now, except for those the open interval of t holds. */
  ghost predicate FaultsSince(t: State, now: int, iv: Interval) {
    || (forall k | 0 <= k < |iv.faults| :: now <= iv.faults[k].raisedAtMS)
    || (t.current.Some? && t.current.value.faults <= iv.faults
        && forall k | |t.current.value.faults| <= k < |iv.faults| :: now <= iv.faults[k].raisedAtMS)
  }

  ghost predicate AllFaultsSince(t: State, now: int, s: State) {
    && (s.current.Some? ==> FaultsSince(t, now, s.current.value))
    && forall k | 0 <= k < |s.closed| :: FaultsSince(t, now, s.closed[k])
  }

  lemma CloseFaultsSince(t: State, now: int, s: State, atMS: int, forced: Option<Result>)
    requires AllFaultsSince(t, now, s)
    ensures AllFaultsSince(t, now, CloseInterval(s, atMS, forced))
  {
    hide CloseInterval, SameTally;
    CloseFrame(s, atMS, forced);
  }

  lemma RecordFaultsSince(cfg: Settings, t: State, now: int, s: State, i: Input)
    requires s.current.Some? && FaultsSince(t, now, s.current.value) && now <= AtMS(i)
    ensures FaultsSince(t, now, Record(cfg, s, i).current.value)
  {
    hide Record;
    var a, b := s.current.value, Record(cfg, s, i).current.value;
    ChildOrder.RecordGrows(cfg, s, i);
    assert ChildOrder.Appends(ChildOrder.Stamps(ChildOrder.Faults, a), ChildOrder.Stamps(ChildOrder.Faults, b),
                              AtMS(i));
    FaultsAppend(cfg, s, i);
    forall k | |a.faults| <= k < |b.faults| ensures now <= b.faults[k].raisedAtMS {
      assert ChildOrder.Stamps(ChildOrder.Faults, b)[k] == b.faults[k].raisedAtMS;
    }
  }

  lemma FaultsAppend(cfg: Settings, t: State, i: Input)
    requires t.current.Some?
    ensures t.current.value.faults <= Record(cfg, t, i).current.value.faults
  {
    hide TrackStateSpan, TrackDwell, LedgerFaultKey, StepRunFaultKey, RecordLedgerFault, ApplyDoorSignals, CountIn,
      LedgerCovers, RecordEvent;
    if i.Apply? && i.row.EventRow? {
      Buffers.EventBuffers(cfg, t, i.row.event, AtMS(i));
    }
  }

  lemma StepFaultsSince(cfg: Settings, t: State, now: int, s: State, i: Input)
    requires AllFaultsSince(t, now, s) && now <= AtMS(i)
    ensures AllFaultsSince(t, now, Step(cfg, s, i))
  {
    hide CloseInterval, EnsureInterval, Record, VerdictOf, SynthKey, FaultsSince;
    EnsureShape(cfg, s, KeyOf(i), StateOf(s, i), OpenAtMS(i));
    var forced := if Overdue(cfg, s, OpenAtMS(i)) then Some(ForcedResult(s.current.value)) else None;
    CloseFaultsSince(t, now, s, OpenAtMS(i), forced);
    var s1 := Opened(cfg, s, i);
    NewFaultsSince(t, now, s1.current.value.orderKey, s1.current.value.isProduction, OpenAtMS(i),
                   s1.current.value.result);
    assert AllFaultsSince(t, now, s1);
    RecordFaultsSince(cfg, t, now, s1, i);
    CloseFaultsSince(t, now, Record(cfg, s1, i), AtMS(i), VerdictOf(cfg, s1, i));
  }

  lemma NewFaultsSince(t: State, now: int, k: string, p: bool, at: int, r: Result)
    ensures FaultsSince(t, now, NewInterval(k, p, at, r))
  {
  }

  lemma {:induction false} RunFaultsSince(cfg: Settings, t: State, now: int, inputs: seq<Input>)
    requires BasePath(now, inputs) && t.closed == []
    ensures AllFaultsSince(t, now, Run(cfg, t, inputs))
  {
    hide Step, FaultsSince;
    if inputs == [] {
      CurrentFaultsSince(t, now);
    } else {
      TimeOrderedFront(now, inputs);
      RunFaultsSince(cfg, t, now, Front(inputs));
      StepFaultsSince(cfg, t, now, Run(cfg, t, Front(inputs)), Last(inputs));
    }
  }

  lemma CurrentFaultsSince(t: State, now: int)
    requires t.closed == []
    ensures AllFaultsSince(t, now, t)
  {
  }

  lemma LaterFaultsSince(cfg: Settings, t: State, now: int, inputs: seq<Input>, closeAt: int)
    requires BasePath(now, inputs) && t.closed == []
    ensures forall k | 0 <= k < |LaterIntervals(cfg, t, inputs, closeAt)| ::
              FaultsSince(t, now, LaterIntervals(cfg, t, inputs, closeAt)[k])
  {
    hide Run, CloseInterval, FaultsSince;
    RunFaultsSince(cfg, t, now, inputs);
    var s := Run(cfg, t, inputs);
    CloseFaultsSince(t, now, s, FlushAt(s, closeAt), FlushResult(s));
  }

  // ---------------------------------------------------------------------------
  // Main result
  // ---------------------------------------------------------------------------

  /** The open interval buffers a fault of the window that is not stored yet. */
  ghost predicate UnsettledFault(faults: seq<Stored<OutFault>>, t: State, lo: int, hi: int) {
    t.current.Some? && AddsTo(faults, t.current.value.faults, lo, hi)
  }

  lemma PrefixAdds(faults: seq<Stored<OutFault>>, some: seq<OutFault>, all: seq<OutFault>, lo: int, hi: int)
    requires some <= all && forall k | |some| <= k < |all| :: !InWindow(all[k], lo, hi)
    ensures AddsTo(faults, all, lo, hi) ==> AddsTo(faults, some, lo, hi)
  {
    hide HasFault, HasKey;
    if AddsTo(faults, all, lo, hi) {
      var k: nat :| k < |all| && InWindow(all[k], lo, hi) && IsStored(faults, all, k);
      assert all[..k] == some[..k] && all[k] == some[k];
      assert IsStored(faults, some, k);
    }
  }

  lemma AddsLess(a: seq<Stored<OutFault>>, b: seq<Stored<OutFault>>, fs: seq<OutFault>, lo: int, hi: int)
    requires forall key :: HasFault(a, key) ==> HasFault(b, key)
    ensures AddsTo(b, fs, lo, hi) ==> AddsTo(a, fs, lo, hi)
  {
    hide HasFault, HasKey;
    if AddsTo(b, fs, lo, hi) {
      var k: nat :| k < |fs| && InWindow(fs[k], lo, hi) && IsStored(b, fs, k);
      assert IsStored(a, fs, k);
    }
  }

  lemma LaterAddsNothing(faults: seq<Stored<OutFault>>, t: State, now: int, iv: Interval, lo: int, hi: int)
    requires hi <= now && !UnsettledFault(faults, t, lo, hi) && FaultsSince(t, now, iv)
    ensures !AddsTo(faults, iv.faults, lo, hi)
  {
    hide IsStored;
    if t.current.Some? && t.current.value.faults <= iv.faults {
      if forall k | |t.current.value.faults| <= k < |iv.faults| :: now <= iv.faults[k].raisedAtMS {
        PrefixAdds(faults, t.current.value.faults, iv.faults, lo, hi);
      }
    }
  }

  lemma FaultsOfOne(c: Copy, iv: Interval)
    ensures WriteInterval(c, iv).tables.faults == InsertFaults(c.tables.faults, iv.faults)
  {
    hide Mapped, UpsertCycle, InsertFaults, HighTS, SetMark, SetMarks, Guarded;
  }

  lemma {:induction false} SettledFaultsStay(c: Copy, t: State, now: int, ivs: seq<Interval>, lo: int, hi: int)
    requires hi <= now && !UnsettledFault(c.tables.faults, t, lo, hi)
    requires forall k | 0 <= k < |ivs| :: FaultsSince(t, now, ivs[k])
    ensures FaultCount(WriteIntervals(c, ivs).tables.faults, lo, hi) == FaultCount(c.tables.faults, lo, hi)
    ensures forall key :: HasFault(c.tables.faults, key) ==> HasFault(WriteIntervals(c, ivs).tables.faults, key)
  {
    hide FaultCount, HasFault, WriteInterval, FaultsSince, AddsTo, HasKey;
    if ivs != [] {
      SettledFaultsStay(c, t, now, Front(ivs), lo, hi);
      var d, iv := WriteIntervals(c, Front(ivs)), Last(ivs);
      if t.current.Some? {
        AddsLess(c.tables.faults, d.tables.faults, t.current.value.faults, lo, hi);
      }
      LaterAddsNothing(d.tables.faults, t, now, iv, lo, hi);
      FaultsOfOne(d, iv);
      InsertCounts(d.tables.faults, iv.faults, lo, hi);
      forall key | HasFault(d.tables.faults, key) ensures HasFault(WriteInterval(d, iv).tables.faults, key) {
        InsertedKeys(d.tables.faults, iv.faults, key);
      }
    }
  }

  lemma UnsettledFaultShows(cfg: Settings, c: Copy, t: State, now: int, lo: int, hi: int)
    requires UnsettledFault(c.tables.faults, t, lo, hi) && t.closed == []
    ensures FaultCount(WriteIntervals(c, LaterIntervals(cfg, t, [], now)).tables.faults, lo, hi)
          > FaultCount(c.tables.faults, lo, hi)
  {
    hide FaultCount, AddsTo, WriteInterval, LaterIntervals, CloseInterval, SameTally;
    var ivs := LaterIntervals(cfg, t, [], now);
    FlushedAtOnce(cfg, t, now);
    assert Front(ivs) == [] && WriteIntervals(c, []) == c;
    FaultsOfOne(c, ivs[0]);
    InsertCounts(c.tables.faults, ivs[0].faults, lo, hi);
  }

  ghost predicate FaultsFinalAgainst(cfg: Settings, c: Copy, t: State, inputs: seq<Input>, closeAt: int, lo: int,
                                     hi: int) {
    FaultCount(WriteIntervals(c, LaterIntervals(cfg, t, inputs, closeAt)).tables.faults, lo, hi)
    == FaultCount(c.tables.faults, lo, hi)
  }

  /** On the base path, with everything closed handed over, the fault count of a bucket that has ended equals a recount
      after every continuation of the run exactly when the open interval, whatever its kind, buffers no fault of the
      bucket that is not stored. */
  lemma FaultsFinalExactly(cfg: Settings, c: Copy, t: State, now: int, lo: int, hi: int)
    requires lo < hi <= now && t.closed == []
    ensures (forall inputs, closeAt | BasePath(now, inputs) && Now(now, inputs) <= closeAt ::
               FaultsFinalAgainst(cfg, c, t, inputs, closeAt, lo, hi))
       <==> !UnsettledFault(c.tables.faults, t, lo, hi)
  {
    hide Run, FlushOpen, FaultCount, WriteIntervals, UnsettledFault, FaultsSince, LaterIntervals;
    if UnsettledFault(c.tables.faults, t, lo, hi) {
      UnsettledFaultShows(cfg, c, t, now, lo, hi);
      assert BasePath(now, []) && Now(now, []) <= now;
      assert !FaultsFinalAgainst(cfg, c, t, [], now, lo, hi);
    } else {
      forall inputs, closeAt | BasePath(now, inputs) && Now(now, inputs) <= closeAt
        ensures FaultsFinalAgainst(cfg, c, t, inputs, closeAt, lo, hi)
      {
        LaterFaultsSince(cfg, t, now, inputs, closeAt);
        SettledFaultsStay(c, t, now, LaterIntervals(cfg, t, inputs, closeAt), lo, hi);
      }
    }
  }
}
