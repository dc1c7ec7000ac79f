/** The tables a run leaves, as the rollups read them (cmd/projector/rollup.go, cmd/projector/writer.go). */
module RunRollups {
  import opened Intervals
  import opened TrackerSpec
  import opened Frames
  import opened Buffers
  import opened Timeline
  import opened Spans
  import opened Replica
  import opened Writers
  import opened Rollups
  import opened Additivity
  import opened Finality
  import ChildOrder
  import EmitOrder
  import Calendar
  import StateStores
  import Text

  function RowsOf<T>(s: seq<Stored<T>>): seq<T> {
    seq(|s|, k requires 0 <= k < |s| => s[k].row)
  }

  lemma SpansOfOne(c: Copy, iv: Interval)
    ensures WriteInterval(c, iv).tables.spans == c.tables.spans + Mapped(StoreSpan, iv.stateDurations)
  {
    hide Mapped, UpsertCycle, InsertFaults, HighTS, SetMark, SetMarks, Guarded;
  }

  lemma RowsJoin(rows: seq<Stored<OutSpan>>, s: seq<OutSpan>)
    ensures RowsOf(rows + Mapped(StoreSpan, s)) == RowsOf(rows) + s
  {
    hide Mapped, Calendar.EventTS, Calendar.DateUTC;
  }

  /** The state_durations table holds the spans of the written intervals. */
  lemma {:induction false} SpansWritten(c: Copy, ivs: seq<Interval>)
    ensures RowsOf(WriteIntervals(c, ivs).tables.spans) == RowsOf(c.tables.spans) + Flat(SpansOf, ivs)
  {
    hide WriteInterval, RowsOf;
    if ivs == [] {
      assert Flat(SpansOf, ivs) == [];
    } else {
      SpansWritten(c, Front(ivs));
      SpansOfOne(WriteIntervals(c, Front(ivs)), Last(ivs));
      RowsJoin(WriteIntervals(c, Front(ivs)).tables.spans, Last(ivs).stateDurations);
    }
  }

  lemma {:induction false} DistinctOnce<T>(s: seq<T>, x: T)
    requires forall j, k | 0 <= j < k < |s| :: s[j] != s[k]
    ensures multiset(s)[x] <= 1
  {
    if s != [] {
      var front := Front(s);
      assert s == front + [Last(s)];
      DistinctOnce(front, x);
      assert x == Last(s) ==> x !in front;
    }
  }

  lemma DisjointDistinct(s: seq<OutSpan>)
    requires Disjoint(s)
    ensures forall j, k | 0 <= j < k < |s| :: s[j] != s[k]
  {
    forall j, k | 0 <= j < k < |s| ensures s[j] != s[k] {
      assert s[j].exitedAtMS <= s[k].enteredAtMS;
    }
  }

  lemma TwoApart(s: seq<OutSpan>, x: OutSpan, y: OutSpan)
    requires Disjoint(s) && x in s && y in s && x != y
    ensures x.exitedAtMS <= y.enteredAtMS || y.exitedAtMS <= x.enteredAtMS
  {
    var a :| 0 <= a < |s| && s[a] == x;
    var b :| 0 <= b < |s| && s[b] == y;
  }

  lemma TwiceInSeq<T>(s: seq<T>, j: nat, k: nat)
    requires j < k < |s| && s[j] == s[k]
    ensures multiset(s)[s[j]] >= 2
  {
    assert s == s[..k] + s[k..];
    assert s[j] in s[..k] && s[k] in s[k..];
  }

  /** Disjoint spans stay apart in whatever order they are stored. */
  lemma ApartInAnyOrder(s: seq<OutSpan>, spans: seq<OutSpan>)
    requires Disjoint(s) && multiset(spans) == multiset(s)
    ensures Apart(spans)
  {
    hide Disjoint;
    forall j, k | 0 <= j < k < |spans|
      ensures spans[j].exitedAtMS <= spans[k].enteredAtMS || spans[k].exitedAtMS <= spans[j].enteredAtMS
    {
      assert spans[j] in multiset(s) && spans[k] in multiset(s);
      if spans[j] == spans[k] {
        TwiceInSeq(spans, j, k);
        DisjointDistinct(s);
        DistinctOnce(s, spans[j]);
      } else {
        TwoApart(s, spans[j], spans[k]);
      }
    }
  }

  /** While the run goes on, the spans of the closed intervals are disjoint as well. */
  lemma SpansSoFar(cfg: Settings, start: int, inputs: seq<Input>)
    requires TimeOrdered(start, inputs)
    ensures Disjoint(Flat(SpansOf, Run(cfg, INITIAL, inputs).closed))
  {
    hide Run, SpansInOrder, Step, Disjoint;
    var t := Run(cfg, INITIAL, inputs);
    InitialInOrder(start);
    Spans.RunInOrder(cfg, INITIAL, start, inputs);
    RunQueues(cfg, INITIAL, inputs);
    ClosedSpans(t, Now(start, inputs));
    EmittedSpansDisjoint(t.finished);
  }

  lemma ClosedSpans(t: State, now: int)
    requires SpansInOrder(t, now)
    ensures Disjoint(Flat(SpansOf, t.finished))
  {
    var s, a := All(SpansOf, t), Flat(SpansOf, t.finished);
    assert forall k | 0 <= k < |a| :: a[k] == s[k];
  }

  /** On both paths, whenever a bucket is aggregated, during the run or after its final flush, and in whatever order the
      spans were stored: run, error, maintenance and idle time together never exceed the bucket, and fill it exactly
      when the spans cover it. */
  lemma BucketNeverOverflows(cfg: Settings, start: int, inputs: seq<Input>, closeAt: int, ivs: seq<Interval>,
                             spans: seq<OutSpan>, lo: int, hi: int, o: Occupancy)
    requires TimeOrdered(start, inputs) && Now(start, inputs) <= closeAt && lo <= hi
    requires ivs == Run(cfg, INITIAL, inputs).closed || ivs == WholeRun(cfg, inputs, closeAt).closed
    requires multiset(spans) == multiset(Flat(SpansOf, ivs))
    requires forall c :: Value(o, c) == Occupied(spans, c, lo, hi)
    ensures 0 <= Sum(o) <= hi - lo
    ensures Sum(o) == hi - lo <==> Covered(spans, lo, hi)
  {
    hide Run, FlushOpen, Disjoint, Apart, Covered, Occupied;
    if ivs == Run(cfg, INITIAL, inputs).closed {
      SpansSoFar(cfg, start, inputs);
    } else {
      WholeRunSpans(cfg, start, inputs, closeAt);
    }
    ApartInAnyOrder(Flat(SpansOf, ivs), spans);
    OccupancyPartitions(spans, lo, hi, o);
  }

  // ---------------------------------------------------------------------------
  // Cycles
  // ---------------------------------------------------------------------------

  lemma {:induction false} ChildMarksAside(marks: Marks, tables: seq<string>, ts: string)
    requires "cycles" !in tables
    ensures MarkOf(SetMarks(marks, tables, ts), "cycles") == MarkOf(marks, "cycles")
  {
    if tables != [] {
      assert Last(tables) in tables;
      ChildMarksAside(marks, Front(tables), ts);
    }
  }

  lemma SameGuard(a: Marks, b: Marks, ms: int)
    requires MarkOf(a, "cycles") == MarkOf(b, "cycles")
    ensures Guarded(a, "cycles", ms) == Guarded(b, "cycles", ms)
    ensures var ts := Guarded(a, "cycles", ms);
            MarkOf(SetMark(a, "cycles", ts), "cycles") == MarkOf(SetMark(b, "cycles", ts), "cycles")
  {
    hide Calendar.EventTS, Text.LexLess, MarkOf;
    var ts := Guarded(a, "cycles", ms);
    StateStores.MarkIsMax(StateStores.Store(a, a), "cycles", ts, "cycles");
    StateStores.MarkIsMax(StateStores.Store(b, b), "cycles", ts, "cycles");
  }

  /** The cycles table of the replica is the one the finality of hour rows is stated for. */
  lemma {:induction false} CyclesWritten(c: Copy, d: CycleTable, ivs: seq<Interval>)
    requires d.rows == c.tables.cycles && MarkOf(d.marks, "cycles") == MarkOf(c.marks, "cycles")
    ensures WriteIntervals(c, ivs).tables.cycles == WriteCycles(d, ivs).rows
    ensures MarkOf(WriteIntervals(c, ivs).marks, "cycles") == MarkOf(WriteCycles(d, ivs).marks, "cycles")
  {
    hide Guarded, SetMark, SetMarks, UpsertCycle, InsertFaults, HighTS, MarkOf;
    if ivs != [] {
      CyclesWritten(c, d, Front(ivs));
      var e, f, iv := WriteIntervals(c, Front(ivs)), WriteCycles(d, Front(ivs)), Last(ivs);
      SameGuard(e.marks, f.marks, iv.endedMS);
      var ts := Guarded(e.marks, "cycles", iv.endedMS);
      ChildMarksAside(SetMark(e.marks, "cycles", ts), CHILD_TABLES, HighTS(iv, ts));
    }
  }

  // ---------------------------------------------------------------------------
  // Faults
  // ---------------------------------------------------------------------------

  lemma {:induction false} InsertedDated(faults: seq<Stored<OutFault>>, more: seq<OutFault>)
    requires Dated(faults) && forall k | 0 <= k < |more| :: Calendar.FourDigitYear(more[k].raisedAtMS)
    ensures Dated(InsertFaults(faults, more))
  {
    hide Calendar.DateUTC, Calendar.EventTS, HasFault;
    if more != [] {
      InsertedDated(faults, Front(more));
    }
  }

  lemma OneDated(c: Copy, iv: Interval, lo: int, hi: int)
    requires Dated(c.tables.faults) && lo <= iv.startedMS <= iv.endedMS <= hi
    requires ChildOrder.Stamped(iv, iv.startedMS, iv.endedMS)
    requires Calendar.FourDigitYear(lo) && Calendar.FourDigitYear(hi)
    ensures Dated(WriteInterval(c, iv).tables.faults)
  {
    hide Dated, InsertFaults, UpsertCycle, HighTS, SetMark, SetMarks, Guarded, Mapped;
    var stamps := ChildOrder.Stamps(ChildOrder.Faults, iv);
    assert ChildOrder.InOrder(stamps, iv.startedMS, iv.endedMS);
    forall k | 0 <= k < |iv.faults| ensures Calendar.FourDigitYear(iv.faults[k].raisedAtMS) {
      assert stamps[k] == iv.faults[k].raisedAtMS;
    }
    InsertedDated(c.tables.faults, iv.faults);
  }

  lemma {:induction false} WrittenDated(c: Copy, ivs: seq<Interval>, lo: int, hi: int)
    requires Dated(c.tables.faults) && EmitOrder.Consecutive(ivs, lo, hi)
    requires Calendar.FourDigitYear(lo) && Calendar.FourDigitYear(hi)
    ensures Dated(WriteIntervals(c, ivs).tables.faults)
  {
    hide Dated, WriteInterval, ChildOrder.Stamped;
    if ivs != [] {
      WrittenDated(c, Front(ivs), lo, hi);
      assert Last(ivs) == ivs[|ivs| - 1];
      OneDated(WriteIntervals(c, Front(ivs)), Last(ivs), lo, hi);
    }
  }

  /** The faults a base-path run leaves in the replica carry the date they were raised on, which is what makes the day's
      count by date the sum of its hours. */
  lemma RunFaultsDated(cfg: Settings, start: int, inputs: seq<Input>, closeAt: int)
    requires BasePath(start, inputs) && Now(start, inputs) <= closeAt
    requires Calendar.FourDigitYear(start) && Calendar.FourDigitYear(closeAt + 1)
    ensures Dated(WriteIntervals(EmitOrder.EMPTY, WholeRun(cfg, inputs, closeAt).closed).tables.faults)
  {
    hide WholeRun, EmitOrder.Consecutive, WriteIntervals;
    EmitOrder.RunConsecutive(cfg, start, inputs, closeAt);
    WrittenDated(EmitOrder.EMPTY, WholeRun(cfg, inputs, closeAt).closed, start, closeAt + 1);
  }
}
