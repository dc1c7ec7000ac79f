/** The projector from start to shutdown over a fixed source (cmd/projector/main.go). */
module MainLoop {
  import opened Source
  import opened Sorting
  import opened Merge
  import opened Drain
  import opened Intervals
  import opened TrackerSpec
  import opened Frames
  import opened Pipeline
  import opened Replica
  import opened StateStores
  import opened Writers
  import opened RollupEmitters
  import opened Projectors
  import opened EmitOrder
  import opened Buckets
  import opened Grains
  import opened Starts
  import opened Shutdown
  import Additivity
  import Calendar
  import RunRollups
  import Text

  // ---------------------------------------------------------------------------
  // The rollups stay out of the way of cycles and source cursors
  // ---------------------------------------------------------------------------

  lemma {:induction false} BucketsKeepMark(g: Grain, t: Tables, e: Emission, buckets: seq<int>)
    ensures MarkOf(EmitBuckets(g, t, e, buckets).marks, "cycles") == MarkOf(e.marks, "cycles")
  {
    hide Guarded, RowOf;
    if buckets != [] {
      BucketsKeepMark(g, t, e, Front(buckets));
      var f := EmitBuckets(g, t, e, Front(buckets));
      OtherMark(f.marks, g, Guarded(f.marks, TableOf(g), Last(buckets) + Width(g)));
    }
  }

  lemma OtherMark(marks: Marks, g: Grain, ts: string)
    ensures MarkOf(SetMark(marks, TableOf(g), ts), "cycles") == MarkOf(marks, "cycles")
  {
    hide Text.LexLe;
    assert TableOf(g) != "cycles" by {
      assert |TableOf(g)| != |"cycles"|;
    }
  }

  lemma GrainKeeps(g: Grain, t: Tables, p: Progress, upTo: int, k: nat)
    requires k < TABLES
    ensures var r := GrainAfter(g, t, p, upTo);
            && MarkOf(r.emission.marks, "cycles") == MarkOf(p.emission.marks, "cycles")
            && CursorOf(r.cursors, TableName(k)) == CursorOf(p.cursors, TableName(k))
  {
    hide DueBuckets, EmitBuckets, MarkOf;
    BucketsKeepMark(g, t, p.emission, DueBuckets(g, t, p.cursors, upTo));
    assert TableOf(g) != TableName(k) by {
      assert |TableOf(g)| == 14 || TableOf(g)[0] == 'd';
    }
  }

  lemma DerivedKeeps(t: Tables, p: Progress, upTo: int, k: nat)
    requires k < TABLES
    ensures var r := RollupsAfter(t, p, upTo);
            && MarkOf(r.emission.marks, "cycles") == MarkOf(p.emission.marks, "cycles")
            && CursorOf(r.cursors, TableName(k)) == CursorOf(p.cursors, TableName(k))
  {
    hide GrainAfter, MarkOf, TableName;
    GrainKeeps(Hour, t, p, upTo, k);
    GrainKeeps(Day, t, GrainAfter(Hour, t, p, upTo), upTo, k);
  }

  /** The same tables, and the same watermark of the only guarded one. */
  predicate SameCopy(a: Copy, b: Copy) {
    a.tables == b.tables && MarkOf(a.marks, "cycles") == MarkOf(b.marks, "cycles")
  }

  lemma {:induction false} WritingSame(a: Copy, b: Copy, ivs: seq<Interval>)
    requires SameCopy(a, b)
    ensures SameCopy(WriteIntervals(a, ivs), WriteIntervals(b, ivs))
  {
    hide SameCopy, WriteInterval;
    if ivs != [] {
      WritingSame(a, b, Front(ivs));
      WritingOne(WriteIntervals(a, Front(ivs)), WriteIntervals(b, Front(ivs)), Last(ivs));
    }
  }

  lemma WritingOne(a: Copy, b: Copy, iv: Interval)
    requires SameCopy(a, b)
    ensures SameCopy(WriteInterval(a, iv), WriteInterval(b, iv))
  {
    hide Guarded, SetMark, SetMarks, Written, HighTS, MarkOf;
    RunRollups.SameGuard(a.marks, b.marks, iv.endedMS);
    var ts := Guarded(a.marks, "cycles", iv.endedMS);
    RunRollups.ChildMarksAside(SetMark(a.marks, "cycles", ts), CHILD_TABLES, HighTS(iv, ts));
    RunRollups.ChildMarksAside(SetMark(b.marks, "cycles", ts), CHILD_TABLES, HighTS(iv, ts));
  }

  lemma {:induction false} WritingMore(c: Copy, a: seq<Interval>, b: seq<Interval>)
    ensures WriteIntervals(c, a + b) == WriteIntervals(WriteIntervals(c, a), b)
  {
    hide WriteInterval;
    if b == [] {
      assert a + b == a;
    } else {
      assert Front(a + b) == a + Front(b) && Last(a + b) == Last(b);
      WritingMore(c, a, Front(b));
    }
  }

  // ---------------------------------------------------------------------------
  // Ticks over a fixed source
  // ---------------------------------------------------------------------------

  const NEW_SERVICE := Service(INITIAL, EMPTY.tables, Progress(Emission([], map[]), map[]), 0)

  function CopyOf(s: Service): Copy {
    Copy(s.tables, s.stored.emission.marks)
  }

  function LastMS(rows: seq<Row>): int {
    if rows == [] then 0 else Millis(At(Last(rows)))
  }

  /** After some ticks: the rows applied so far, the intervals handed over so far, and what is still to come. */
  ghost predicate Underway(cfg: Settings, ts: seq<seq<Row>>, batch: nat, pos: seq<nat>, s: Service, rows: seq<Row>,
                           ivs: seq<Interval>)
    requires ValidTables(ts) && batch > 0
  {
    && AtPos(s.stored.cursors, ts, pos) && s.trk.closed == []
    && Drained(ts, START, batch) == rows + Drained(ts, pos, batch) && s.lastTimelineMS == LastMS(rows)
    && SameCopy(CopyOf(s), WriteIntervals(EMPTY, ivs))
    && var (more, end) := Ticking(cfg, ts, pos, batch, s.trk);
       Ticking(cfg, ts, START, batch, INITIAL) == (ivs + more, end)
  }

  lemma StartsUnderway(cfg: Settings, ts: seq<seq<Row>>, batch: nat)
    requires ValidTables(ts) && batch > 0
    ensures Underway(cfg, ts, batch, START, NEW_SERVICE, [], [])
  {
    hide Ticking, Drained, TableName;
    var (more, end) := Ticking(cfg, ts, START, batch, INITIAL);
    assert [] + more == more && [] + Drained(ts, START, batch) == Drained(ts, START, batch);
  }

  lemma NothingLeft(ts: seq<seq<Row>>, pos: seq<nat>, batch: nat)
    requires ValidTables(ts) && ValidPos(ts, pos) && Left(ts, pos) == 0
    ensures Applied(ts, pos, batch) == []
  {
    hide Applied, SafeUpTo, Page;
    if Applied(ts, pos, batch) != [] {
      var r := Applied(ts, pos, batch)[0];
      assert Kind(r) < TABLES;
      AppliedMembers(ts, pos, batch, Kind(r), r);
      EndPage(ts[Kind(r)], pos[Kind(r)], batch);
      assert false;
    }
  }

  lemma EndPage(t: seq<Row>, p: nat, batch: nat)
    requires p == |t|
    ensures Page(t, p, batch) == []
  {
  }

  lemma TickedSource(cfg: Settings, s: Service, rows: seq<Row>, ts: seq<seq<Row>>, pos: seq<nat>, batch: nat)
    requires ValidTables(ts) && AtPos(s.stored.cursors, ts, pos) && rows == Applied(ts, pos, batch)
    ensures AtPos(Ticked(cfg, s, rows, []).stored.cursors, ts, NextPos(ts, pos, batch))
  {
    hide Applied, Advanced, LastIDs, NextPos, RollupsAfter, Run, TableName, WriteIntervals, Handover;
    AdvanceReachesNextPos(s.stored.cursors, ts, pos, batch);
    var s1 := WithCursors(s, Advanced(s.stored.cursors, LastIDs(rows)));
    var s2 := HandOver(s1, Run(cfg, s.trk, TickInputs(rows, [])));
    forall k | 0 <= k < TABLES
      ensures CursorOf(Ticked(cfg, s, rows, []).stored.cursors, TableName(k))
           == CursorOf(s1.stored.cursors, TableName(k))
    {
      DerivedKeeps(s2.tables, s2.stored, LastMS(rows), k);
    }
  }

  lemma TickedCopy(cfg: Settings, s: Service, rows: seq<Row>, ivs: seq<Interval>)
    requires SameCopy(CopyOf(s), WriteIntervals(EMPTY, ivs))
    ensures var closed := Run(cfg, s.trk, Inputs(rows)).closed;
            SameCopy(CopyOf(Ticked(cfg, s, rows, [])), WriteIntervals(EMPTY, ivs + Handover(closed)))
  {
    hide Advanced, LastIDs, RollupsAfter, Run, WriteIntervals, Handover, Inputs, MarkOf;
    NoConfig(rows);
    var s1 := WithCursors(s, Advanced(s.stored.cursors, LastIDs(rows)));
    var closed := Run(cfg, s.trk, Inputs(rows)).closed;
    var s2 := HandOver(s1, Run(cfg, s.trk, Inputs(rows)));
    WritingSame(CopyOf(s), WriteIntervals(EMPTY, ivs), Handover(closed));
    WritingMore(EMPTY, ivs, Handover(closed));
    DerivedKeeps(s2.tables, s2.stored, LastMS(rows), 0);
  }

  lemma NoConfig(rows: seq<Row>)
    ensures TickInputs(rows, []) == Inputs(rows)
  {
    assert Inputs(rows) + [] == Inputs(rows);
    assert rows != [] ==> ConfigInputs([], At(Last(rows))) == [];
  }

  lemma TickedTracker(cfg: Settings, s: Service, rows: seq<Row>)
    ensures Ticked(cfg, s, rows, []).trk == HandedOver(Run(cfg, s.trk, Inputs(rows)))
    ensures Ticked(cfg, s, rows, []).lastTimelineMS == if rows == [] then s.lastTimelineMS else LastMS(rows)
  {
    hide Advanced, LastIDs, RollupsAfter, Run, WriteIntervals, Handover, Inputs;
    NoConfig(rows);
  }

  lemma TickKeepsUnderway(cfg: Settings, ts: seq<seq<Row>>, batch: nat, pos: seq<nat>, s: Service, rows: seq<Row>,
                          ivs: seq<Interval>)
    requires ValidTables(ts) && batch > 0 && Underway(cfg, ts, batch, pos, s, rows, ivs)
    ensures var now := Applied(ts, pos, batch);
            Underway(cfg, ts, batch, NextPos(ts, pos, batch), Ticked(cfg, s, now, []), rows + now,
                     ivs + Handover(Run(cfg, s.trk, Inputs(now)).closed))
  {
    hide Applied, NextPos, Run, Ticked, WriteIntervals, Handover, Inputs, AtPos, Ticking, Drained, SameCopy, LastMS;
    AtPosIsValid(s.stored.cursors, ts, pos);
    var now := Applied(ts, pos, batch);
    var t1 := Run(cfg, s.trk, Inputs(now));
    TickedSource(cfg, s, now, ts, pos, batch);
    TickedCopy(cfg, s, now, ivs);
    TickedTracker(cfg, s, now);
    LastOfMore(rows, now);
    OneTickOn(cfg, ts, pos, batch, s.trk);
    var (more, end) := Ticking(cfg, ts, NextPos(ts, pos, batch), batch, HandedOver(t1));
    assert (ivs + Handover(t1.closed)) + more == ivs + (Handover(t1.closed) + more);
    assert (rows + now) + Drained(ts, NextPos(ts, pos, batch), batch)
        == rows + (now + Drained(ts, NextPos(ts, pos, batch), batch));
  }

  lemma LastOfMore(a: seq<Row>, b: seq<Row>)
    ensures LastMS(a + b) == if b == [] then LastMS(a) else LastMS(b)
  {
    assert b == [] ==> a + b == a;
    assert b != [] ==> Last(a + b) == Last(b);
  }

  /** A tick takes its share off what is still to come, also when nothing is left. */
  lemma OneTickOn(cfg: Settings, ts: seq<seq<Row>>, pos: seq<nat>, batch: nat, t: State)
    requires ValidTables(ts) && ValidPos(ts, pos) && batch > 0 && t.closed == []
    ensures var now := Applied(ts, pos, batch);
            var t1 := Run(cfg, t, Inputs(now));
            && ValidPos(ts, NextPos(ts, pos, batch))
            && Drained(ts, pos, batch) == now + Drained(ts, NextPos(ts, pos, batch), batch)
            && var (more, end) := Ticking(cfg, ts, NextPos(ts, pos, batch), batch, HandedOver(t1));
               Ticking(cfg, ts, pos, batch, t) == (Handover(t1.closed) + more, end)
  {
    hide Applied, Run, Handover, Inputs;
    TickShrinks(ts, pos, batch);
    if Left(ts, pos) == 0 {
      NothingLeft(ts, pos, batch);
      NoInputs(cfg, t);
      FewInOrder([]);
      assert NextPos(ts, pos, batch) == pos by {
        assert Filter(OfKind(0), []) == [];
      }
      assert HandedOver(t) == t;
    }
  }

  /** Enough ticks: each one but the last makes progress. */
  ghost predicate Enough(ts: seq<seq<Row>>, pos: seq<nat>, batch: nat, done: nat)
    requires ValidTables(ts) && batch > 0
  {
    ValidPos(ts, pos) && (Left(ts, pos) == 0 || Ticks(ts, pos, batch) + done <= Ticks(ts, START, batch))
  }

  lemma TickCounts(ts: seq<seq<Row>>, pos: seq<nat>, batch: nat, done: nat)
    requires ValidTables(ts) && batch > 0 && Enough(ts, pos, batch, done)
    ensures Enough(ts, NextPos(ts, pos, batch), batch, done + 1)
  {
    hide NextPos;
    TickShrinks(ts, pos, batch);
  }

  // ---------------------------------------------------------------------------
  // The rollups on the way
  // ---------------------------------------------------------------------------

  /** No source row lies before an instant, and no step run began before it. */
  ghost predicate SourceFrom(ts: seq<seq<Row>>, lo: int)
    requires |ts| == TABLES
  {
    forall k, i | 0 <= k < TABLES && 0 <= i < |ts[k]| :: RowFrom(ts[k][i], lo)
  }

  predicate RowFrom(r: Row, lo: int) {
    lo <= Millis(At(r)) && (r.StepRunRow? ==> lo <= Millis(r.stepRun.started))
  }

  /** What is stored of the rollups is what these rounds emitted, and nothing starts before the source does. */
  ghost predicate Rolling(ts: seq<seq<Row>>, s: Service, rounds: seq<Round>)
    requires |ts| == TABLES
  {
    && AfterTheEpoch(rounds) && s.trk.closed == []
    && (forall g :: SameGrain(g, s.stored, AfterRounds(g, rounds)))
    && forall lo | SourceFrom(ts, lo) :: OpenFrom(s.trk, lo) && TablesFrom(s.tables, lo) && StartFrom(rounds, lo)
  }

  lemma StartsRolling(ts: seq<seq<Row>>)
    requires |ts| == TABLES
    ensures Rolling(ts, NEW_SERVICE, [])
  {
    forall g ensures SameGrain(g, NEW_SERVICE.stored, AfterRounds(g, [])) {
      NothingSame(g);
    }
  }

  /** An aggregation beyond the epoch is one more round. */
  function NextRounds(rounds: seq<Round>, t: Tables, upTo: int): seq<Round> {
    if upTo <= 0 then rounds else rounds + [Round(t, upTo)]
  }

  lemma AggregateRolls(ts: seq<seq<Row>>, s: Service, rounds: seq<Round>, upTo: int)
    requires |ts| == TABLES && Rolling(ts, s, rounds)
    ensures Rolling(ts, Aggregated(s, upTo), NextRounds(rounds, s.tables, upTo))
  {
    hide GrainAfter, SameGrain, OpenFrom, TablesFrom, SourceFrom;
    if upTo > 0 {
      var more := rounds + [Round(s.tables, upTo)];
      assert Front(more) == rounds && Last(more) == Round(s.tables, upTo);
      forall g ensures SameGrain(g, Aggregated(s, upTo).stored, AfterRounds(g, more)) {
        RoundSame(g, s.tables, s.stored, AfterRounds(g, rounds), upTo);
      }
      forall lo | SourceFrom(ts, lo) ensures StartFrom(more, lo) {
        OneMoreStart(rounds, s.tables, upTo, lo);
      }
    }
  }

  lemma OneMoreStart(rounds: seq<Round>, t: Tables, upTo: int, lo: int)
    requires StartFrom(rounds, lo) && TablesFrom(t, lo)
    ensures StartFrom(rounds + [Round(t, upTo)], lo)
  {
    hide RollupEmitters.Starts, TablesFrom;
    StartsFrom(t, lo);
    var more := rounds + [Round(t, upTo)];
    forall k, i | 0 <= k < |more| && 0 <= i < |RollupEmitters.Starts(more[k].t)|
      ensures RollupEmitters.Starts(more[k].t)[i] >= lo
    {
      assert k < |rounds| ==> more[k] == rounds[k];
    }
  }

  lemma {:induction false} ChildMarksElsewhere(marks: Marks, tables: seq<string>, ts: string, g: Grain)
    requires TableOf(g) !in tables
    ensures MarkOf(SetMarks(marks, tables, ts), TableOf(g)) == MarkOf(marks, TableOf(g))
  {
    hide Text.LexLe, TableOf;
    if tables != [] {
      assert Last(tables) in tables;
      ChildMarksElsewhere(marks, Front(tables), ts, g);
    }
  }

  lemma NotARollup(g: Grain)
    ensures TableOf(g) !in CHILD_TABLES && TableOf(g) != "cycles"
  {
    assert TableOf(g)[0] == 'h' || (TableOf(g)[0] == 'd' && |TableOf(g)| == 13);
    assert forall k | 0 <= k < |CHILD_TABLES| ::
             CHILD_TABLES[k][0] != 'h' && (CHILD_TABLES[k][0] != 'd' || |CHILD_TABLES[k]| == 11);
  }

  lemma {:induction false} WritesKeepRollupMark(c: Copy, ivs: seq<Interval>, g: Grain)
    ensures MarkOf(WriteIntervals(c, ivs).marks, TableOf(g)) == MarkOf(c.marks, TableOf(g))
  {
    hide Replica.Written, HighTS, Guarded, SetMarks, TableOf, Text.LexLe;
    if ivs != [] {
      var d, iv := WriteIntervals(c, Front(ivs)), Last(ivs);
      WritesKeepRollupMark(c, Front(ivs), g);
      NotARollup(g);
      var ts := Guarded(d.marks, "cycles", iv.endedMS);
      ChildMarksElsewhere(SetMark(d.marks, "cycles", ts), CHILD_TABLES, HighTS(iv, ts), g);
    }
  }

  lemma {:induction false} AdvanceKeepsRollupCursor(cursors: map<string, SourceCursor>,
                                                    applied: map<string, int>, n: nat, g: Grain)
    requires n <= TABLES
    ensures CursorOf(Advanced(cursors, applied, n), TableOf(g)) == CursorOf(cursors, TableOf(g))
  {
    if n != 0 {
      AdvanceKeepsRollupCursor(cursors, applied, n - 1, g);
      assert TableOf(g) != TableName(n - 1) by {
        assert |TableOf(g)| == 14 || TableOf(g)[0] == 'd';
      }
    }
  }

  lemma HandOverRolls(ts: seq<seq<Row>>, s: Service, t: State, rounds: seq<Round>, applied: map<string, int>)
    requires |ts| == TABLES && Rolling(ts, s, rounds)
    requires forall lo | SourceFrom(ts, lo) :: OpenFrom(t, lo) && AllFrom(t.closed, lo)
    ensures Rolling(ts, HandOver(WithCursors(s, Advanced(s.stored.cursors, applied)), t), rounds)
    ensures Rolling(ts, HandOver(s, t), rounds)
  {
    hide WriteIntervals, Handover, Advanced, OpenFrom, TablesFrom, AllFrom, SourceFrom, MarkOf, StartFrom, CursorOf,
      RowsOfGrain;
    var c := CopyOf(s);
    forall g ensures MarkOf(WriteIntervals(c, Handover(t.closed)).marks, TableOf(g)) == MarkOf(c.marks, TableOf(g))
                     && CursorOf(Advanced(s.stored.cursors, applied), TableOf(g)) ==
                        CursorOf(s.stored.cursors, TableOf(g))
    {
      WritesKeepRollupMark(c, Handover(t.closed), g);
      AdvanceKeepsRollupCursor(s.stored.cursors, applied, TABLES, g);
    }
    forall lo | SourceFrom(ts, lo)
      ensures OpenFrom(HandedOver(t), lo) && TablesFrom(WriteIntervals(c, Handover(t.closed)).tables, lo)
    {
      HandoverFrom(t.closed, lo);
      WritesFrom(c, Handover(t.closed), lo);
      OpenOnly(t, lo);
    }
  }

  lemma OpenOnly(t: State, lo: int)
    ensures OpenFrom(HandedOver(t), lo) <==> OpenFrom(t, lo)
  {
  }

  lemma AppliedFrom(ts: seq<seq<Row>>, pos: seq<nat>, batch: nat, lo: int)
    requires ValidTables(ts) && ValidPos(ts, pos) && SourceFrom(ts, lo)
    ensures InputsFrom(Inputs(Applied(ts, pos, batch)), lo)
  {
    hide Applied, SafeUpTo;
    var rows := Applied(ts, pos, batch);
    forall k | 0 <= k < |rows| ensures RowFrom(rows[k], lo) {
      var r := rows[k];
      assert r in rows && Kind(r) < TABLES;
      AppliedMembers(ts, pos, batch, Kind(r), r);
      var page := Page(ts[Kind(r)], pos[Kind(r)], batch);
      var j :| 0 <= j < |page| && page[j] == r;
      assert r == ts[Kind(r)][pos[Kind(r)] + j];
    }
  }

  lemma TickRolls(cfg: Settings, ts: seq<seq<Row>>, pos: seq<nat>, batch: nat, s: Service, rounds: seq<Round>)
    requires ValidTables(ts) && ValidPos(ts, pos) && Rolling(ts, s, rounds)
    ensures var rows := Applied(ts, pos, batch);
            var r := Ticked(cfg, s, rows, []);
            Rolling(ts, r, if rows == [] then rounds else NextRounds(rounds, r.tables, LastMS(rows)))
  {
    hide Applied, LastIDs, Advanced, Run, Inputs, HandOver, Rolling, SourceFrom, RollupsAfter;
    var rows := Applied(ts, pos, batch);
    var t1 := Run(cfg, s.trk, Inputs(rows));
    NoConfig(rows);
    forall lo | SourceFrom(ts, lo) ensures OpenFrom(t1, lo) && AllFrom(t1.closed, lo) {
      AppliedFrom(ts, pos, batch, lo);
      assert OpenFrom(s.trk, lo) && s.trk.closed == [] by { RollingFrom(ts, s, rounds, lo); }
      RunFrom(cfg, s.trk, Inputs(rows), lo);
    }
    HandOverRolls(ts, s, t1, rounds, LastIDs(rows));
    var s2 := HandOver(WithCursors(s, Advanced(s.stored.cursors, LastIDs(rows))), t1);
    if rows != [] {
      SameRolling(ts, s2, s2.(lastTimelineMS := LastMS(rows)), rounds);
      AggregateRolls(ts, s2.(lastTimelineMS := LastMS(rows)), rounds, LastMS(rows));
    }
  }

  lemma RollingFrom(ts: seq<seq<Row>>, s: Service, rounds: seq<Round>, lo: int)
    requires |ts| == TABLES && Rolling(ts, s, rounds) && SourceFrom(ts, lo)
    ensures OpenFrom(s.trk, lo) && s.trk.closed == [] && StartFrom(rounds, lo)
  {
    hide OpenFrom, SourceFrom, StartFrom;
  }

  lemma SameRolling(ts: seq<seq<Row>>, s: Service, r: Service, rounds: seq<Round>)
    requires |ts| == TABLES && Rolling(ts, s, rounds) && r == s.(lastTimelineMS := r.lastTimelineMS)
    ensures Rolling(ts, r, rounds)
  {
    hide OpenFrom, SourceFrom, StartFrom, SameGrain, TablesFrom;
  }

  lemma FlushRolls(ts: seq<seq<Row>>, s: Service, now: int, rounds: seq<Round>)
    requires |ts| == TABLES && Rolling(ts, s, rounds)
    ensures var f := FinallyFlushed(s, now); Rolling(ts, f, NextRounds(rounds, f.tables, f.lastTimelineMS))
  {
    hide CloseInterval, HandOver, Rolling, SourceFrom, RollupsAfter, TrackerSpec.FlushOpen;
    var at := CloseAt(s.lastTimelineMS, now);
    var t := TrackerSpec.FlushOpen(s.trk, at);
    forall lo | SourceFrom(ts, lo) ensures OpenFrom(t, lo) && AllFrom(t.closed, lo) {
      RollingFrom(ts, s, rounds, lo);
      FlushFrom(s.trk, at, lo);
    }
    HandOverRolls(ts, s, t, rounds, map[]);
    KeepsTimeline(s, t);
    AggregateRolls(ts, HandOver(s, t), rounds, s.lastTimelineMS);
  }

  lemma KeepsTimeline(s: Service, t: State)
    ensures HandOver(s, t).lastTimelineMS == s.lastTimelineMS
  {
  }

  lemma FlushFrom(t: State, atMS: int, lo: int)
    requires OpenFrom(t, lo) && t.closed == []
    ensures var s := TrackerSpec.FlushOpen(t, atMS); OpenFrom(s, lo) && AllFrom(s.closed, lo)
  {
    hide CloseInterval, OpenFrom, IntervalFrom;
    CloseFrom(t, FlushAt(t, atMS), FlushResult(t), lo);
  }

  /** What the rounds left in the common rollup table. */
  lemma RolledRows(ts: seq<seq<Row>>, s: Service, rounds: seq<Round>, g: Grain)
    requires |ts| == TABLES && Rolling(ts, s, rounds)
    ensures RowsOfGrain(g, s.stored.emission.rows) == AfterRounds(g, rounds).emission.rows
    ensures SourceFrom(ts, Width(g)) ==> OnePerBucket(g, RowsOfGrain(g, s.stored.emission.rows))
  {
    hide Filter, AfterRounds, OpenFrom, SourceFrom, RollupEmitters.Starts, TablesFrom, Successive, BucketStarts,
      EachOnce, Text.LexLe, Width;
    assert SameGrain(g, s.stored, AfterRounds(g, rounds));
    if SourceFrom(ts, Width(g)) {
      RollingFrom(ts, s, rounds, Width(g));
      OneRowPerBucket(g, rounds);
    }
  }

  // ---------------------------------------------------------------------------
  // Start to shutdown
  // ---------------------------------------------------------------------------

  /** The rounds, at the end: the last one is over the final tables. */
  ghost predicate EndsWith(rounds: seq<Round>, t: Tables, upTo: int) {
    upTo > 0 ==> rounds != [] && Last(rounds) == Round(t, upTo)
  }

  /** The tables of a source that was drained and flushed while its last row lay after the epoch and not after now: they
      do not depend on the clock, and no cycle ends more than a millisecond after that row. */
  ghost predicate EndsOnTimeline(cfg: Settings, ts: seq<seq<Row>>, batch: nat, t: Tables, now: int)
    requires ValidTables(ts) && batch > 0
  {
    var last := LastMS(Drained(ts, START, batch));
    0 < last <= now ==>
      && t == WriteIntervals(EMPTY, Flushed(cfg, ts, batch, last)).tables
      && (ForwardSource(ts) ==> CyclesEndBy(t.cycles, last + 1))
  }

  lemma ClosesOnTimeline(cfg: Settings, ts: seq<seq<Row>>, batch: nat, now: int)
    requires ValidTables(ts) && batch > 0
    ensures var at := CloseAt(LastMS(Drained(ts, START, batch)), now);
            EndsOnTimeline(cfg, ts, batch, WriteIntervals(EMPTY, Flushed(cfg, ts, batch, at)).tables, now)
  {
    hide Drained, Flushed, WriteIntervals, CyclesEndBy, ForwardSource;
    if 0 < LastMS(Drained(ts, START, batch)) <= now && ForwardSource(ts) {
      ReplicaEndsOnTheTimeline(cfg, ts, batch);
    }
  }

  /** Tick after tick. */
  method Poll(p: Projector, ts: seq<seq<Row>>, config: map<string, string>, n: nat)
    returns (ghost rounds: seq<Round>, ghost pos: seq<nat>, ghost rows: seq<Row>, ghost ivs: seq<Interval>)
    requires p.Valid() && p.View() == NEW_SERVICE && p.rep.st.durableConfig == map[]
    requires ValidTables(ts) && (!p.trk.cfg.useStepRuns ==> ts[2] == [])
    modifies p, p.trk.Repr, p.rep, p.rep.st, p.emitter
    ensures p.Valid() && fresh(p.trk.Repr - old(p.trk.Repr))
    ensures Underway(p.trk.cfg, ts, p.batch, pos, p.View(), rows, ivs) && ValidPos(ts, pos)
    ensures Enough(ts, pos, p.batch, n) && Rolling(ts, p.View(), rounds)
  {
    hide Ticked, Applied, NextPos, Run, Underway, Enough, Handover, Inputs, Rolling, Trackers.Tracker.View, NextRounds,
      SourceFrom, ConfigDrained;
    var i := 0;
    pos, rows, ivs, rounds := START, [], [], [];
    StartsUnderway(p.trk.cfg, ts, p.batch);
    StartsRolling(ts);
    EnoughAtStart(ts, p.batch);
    while i < n
      invariant p.Valid() && fresh(p.trk.Repr - old(p.trk.Repr)) && 0 <= i <= n
      invariant p.rep.st.durableConfig == map[] || p.rep.st.durableConfig == config
      invariant Underway(p.trk.cfg, ts, p.batch, pos, p.View(), rows, ivs)
      invariant Enough(ts, pos, p.batch, i) && Rolling(ts, p.View(), rounds)
    {
      ghost var s := p.View();
      UnderwayAt(p.trk.cfg, ts, p.batch, pos, s, rows, ivs);
      TickKeepsUnderway(p.trk.cfg, ts, p.batch, pos, s, rows, ivs);
      TickRolls(p.trk.cfg, ts, pos, p.batch, s, rounds);
      TickCounts(ts, pos, p.batch, i);
      ghost var previous := p.rep.st.durableConfig;
      ghost var changes := p.Tick(ts, config, pos);
      QuietTick(previous, config, p.rep.st.durableConfig, Applied(ts, pos, p.batch), changes);
      ghost var taken := Applied(ts, pos, p.batch);
      rounds := if taken == [] then rounds else NextRounds(rounds, p.View().tables, LastMS(taken));
      rows, ivs := rows + taken, ivs + Handover(Run(p.trk.cfg, s.trk, Inputs(taken)).closed);
      pos := NextPos(ts, pos, p.batch);
      i := i + 1;
    }
    UnderwayAt(p.trk.cfg, ts, p.batch, pos, p.View(), rows, ivs);
  }

  /** Ticks until shutdown, then the final flush. The replica's tables are those of Flushed: all intervals of the
      drained source, written one after the other, provided there were enough ticks to drain it. The rollup rows of each
      grain are those of the rounds of aggregation, the last one over the final tables; as long as no source row lies in
      the epoch's own bucket there is one row per bucket. */
  method Serve(p: Projector, ts: seq<seq<Row>>, config: map<string, string>, n: nat, now: int)
    returns (ghost rounds: seq<Round>)
    requires p.Valid() && p.View() == NEW_SERVICE && p.rep.st.durableConfig == map[]
    requires ValidTables(ts) && (!p.trk.cfg.useStepRuns ==> ts[2] == [])
    modifies p, p.trk.Repr, p.rep, p.rep.st, p.emitter
    ensures p.Valid()
    ensures n >= Ticks(ts, START, p.batch) ==>
              && p.lastTimelineMS == LastMS(Drained(ts, START, p.batch))
              && p.rep.View().tables
                 == WriteIntervals(EMPTY, Flushed(p.trk.cfg, ts, p.batch, CloseAt(p.lastTimelineMS, now))).tables
    ensures n >= Ticks(ts, START, p.batch) ==> EndsOnTimeline(p.trk.cfg, ts, p.batch, p.rep.View().tables, now)
    ensures EndsWith(rounds, p.rep.View().tables, p.lastTimelineMS)
    ensures forall g :: RowsOfGrain(g, p.emitter.rollups) == AfterRounds(g, rounds).emission.rows
    ensures forall g | SourceFrom(ts, Width(g)) :: OnePerBucket(g, RowsOfGrain(g, p.emitter.rollups))
  {
    hide Ticks, Run, Underway, Enough, WriteIntervals, Flushed, Rolling, Trackers.Tracker.View, NextRounds, SourceFrom,
      RowsOfGrain, AfterRounds, FinallyFlushed, FlushedAt, OnePerBucket, EndsOnTimeline;
    ghost var pos, rows, ivs;
    rounds, pos, rows, ivs := Poll(p, ts, config, n);
    ghost var s := p.View();
    p.FinalFlush(now);
    if n >= Ticks(ts, START, p.batch) {
      EndsFlushed(p.trk.cfg, ts, p.batch, pos, s, rows, ivs, n, now);
      ClosesOnTimeline(p.trk.cfg, ts, p.batch, now);
    }
    FlushRolls(ts, s, now, rounds);
    ghost var f := p.View();
    RoundsEnd(rounds, f.tables, f.lastTimelineMS);
    rounds := NextRounds(rounds, f.tables, f.lastTimelineMS);
    forall g {
      RolledRows(ts, f, rounds, g);
    }
  }

  lemma QuietTick(previous: map<string, string>, config: map<string, string>, after: map<string, string>,
                  rows: seq<Row>, changes: seq<Change>)
    requires ConfigDrained(previous, config, after, rows, changes) && (previous == map[] || previous == config)
    ensures changes == [] && (after == map[] || after == config)
  {
    if rows != [] {
      SameConfigIsQuiet(previous, config, changes);
      assert config + config == config && map[] + config == config;
    }
  }

  lemma RoundsEnd(rounds: seq<Round>, t: Tables, upTo: int)
    ensures EndsWith(NextRounds(rounds, t, upTo), t, upTo)
  {
  }

  lemma EnoughAtStart(ts: seq<seq<Row>>, batch: nat)
    requires ValidTables(ts) && batch > 0
    ensures Enough(ts, START, batch, 0)
  {
    hide Ticks;
  }

  lemma UnderwayAt(cfg: Settings, ts: seq<seq<Row>>, batch: nat, pos: seq<nat>, s: Service, rows: seq<Row>,
                   ivs: seq<Interval>)
    requires ValidTables(ts) && batch > 0 && Underway(cfg, ts, batch, pos, s, rows, ivs)
    ensures AtPos(s.stored.cursors, ts, pos) && ValidPos(ts, pos)
  {
    hide Ticking, Drained;
  }

  /** Once nothing is left, the final flush completes what the ticks handed over. */
  lemma EndsFlushed(cfg: Settings, ts: seq<seq<Row>>, batch: nat, pos: seq<nat>, s: Service, rows: seq<Row>,
                    ivs: seq<Interval>, done: nat, now: int)
    requires ValidTables(ts) && batch > 0 && Underway(cfg, ts, batch, pos, s, rows, ivs)
    requires Enough(ts, pos, batch, done) && done >= Ticks(ts, START, batch)
    ensures s.lastTimelineMS == LastMS(Drained(ts, START, batch))
    ensures FinallyFlushed(s, now).lastTimelineMS == s.lastTimelineMS
    ensures FinallyFlushed(s, now).tables
         == WriteIntervals(EMPTY, Flushed(cfg, ts, batch, CloseAt(s.lastTimelineMS, now))).tables
  {
    hide AtPos, WriteIntervals, Handover, TrackerSpec.FlushOpen, RollupsAfter, Ticks, Run, Applied, NextPos, MarkOf;
    assert Left(ts, pos) == 0 by { SomeTicksLeft(ts, pos, batch); }
    assert rows + [] == rows && ivs + [] == ivs;
    var last := Handover(TrackerSpec.FlushOpen(s.trk, CloseAt(s.lastTimelineMS, now)).closed);
    WritingSame(CopyOf(s), WriteIntervals(EMPTY, ivs), last);
    WritingMore(EMPTY, ivs, last);
  }

  lemma SomeTicksLeft(ts: seq<seq<Row>>, pos: seq<nat>, batch: nat)
    requires ValidTables(ts) && ValidPos(ts, pos) && batch > 0
    ensures Left(ts, pos) != 0 ==> Ticks(ts, pos, batch) > 0
  {
    hide NextPos;
  }

  /** Without step runs and with harmless ties the tables a drained source ends in do not depend on the batch size: they
      are those of one run over all rows, sorted once. */
  lemma BatchSizeDoesNotShowInReplica(cfg: Settings, ts: seq<seq<Row>>, batch: nat, now: int)
    requires ValidTables(ts) && batch > 0 && ts[2] == [] && TiesAreHarmless(ts)
    ensures var closeAt := CloseAt(LastMS(Drained(ts, START, batch)), now);
            && closeAt == CloseAt(LastMS(SortedOnce(ts)), now)
            && WriteIntervals(EMPTY, Flushed(cfg, ts, batch, closeAt)).tables
               == WriteIntervals(EMPTY, WholeRun(cfg, Inputs(SortedOnce(ts)), closeAt).closed).tables
  {
    hide Flushed, WholeRun, Drained, SortedOnce, WriteIntervals;
    HarmlessSorts(ts, batch);
    BatchSizeDoesNotShow(cfg, ts, batch, CloseAt(LastMS(SortedOnce(ts)), now));
  }

  /** Whatever the batch size: once a source without step runs is drained and flushed, all tables are in the order of
      their emit timestamps, no cycle was clamped, and every fault carries the date it was raised on. */
  lemma ServedReplicaInOrder(cfg: Settings, ts: seq<seq<Row>>, batch: nat, now: int)
    requires ValidTables(ts) && batch > 0 && ts[2] == []
    requires forall k, i | 0 <= k < TABLES && 0 <= i < |ts[k]| :: Calendar.FourDigitYear(Millis(At(ts[k][i])))
    requires LastMS(Drained(ts, START, batch)) <= now && Calendar.FourDigitYear(now) && Calendar.FourDigitYear(now + 1)
    ensures var closeAt := CloseAt(LastMS(Drained(ts, START, batch)), now);
            var t := WriteIntervals(EMPTY, Flushed(cfg, ts, batch, closeAt)).tables;
            && (forall c, j, k | 0 <= j < k < |ChildTS(c, t)| :: Text.LexLe(ChildTS(c, t)[j], ChildTS(c, t)[k]))
            && (forall j, k | 0 <= j < k < |t.cycles| :: Text.LexLe(t.cycles[j].eventTS, t.cycles[k].eventTS))
            && (forall k | 0 <= k < |t.cycles| :: t.cycles[k].eventTS == Calendar.EventTS(t.cycles[k].endedMS))
            && Additivity.Dated(t.faults)
  {
    hide Flushed, WholeRun, Drained, WriteIntervals, ChildTS, Text.LexLe, Calendar.EventTS, Inputs, BasePath,
      Additivity.Dated;
    var rows := Drained(ts, START, batch);
    var closeAt := CloseAt(LastMS(rows), now);
    FlushedIsWholeRun(cfg, ts, batch, closeAt);
    DrainedIsBasePath(ts, batch);
    forall k | 0 <= k < |rows| ensures Calendar.FourDigitYear(Millis(At(rows[k]))) {
      DrainedMembers(ts, START, batch, rows[k]);
    }
    CloseInTime(rows, now);
    ReplicaInOrder(cfg, StartMS(rows, now), Inputs(rows), closeAt);
    RunRollups.RunFaultsDated(cfg, StartMS(rows, now), Inputs(rows), closeAt);
  }

  function StartMS(rows: seq<Row>, now: int): int {
    if rows == [] then now else FirstMS(rows)
  }

  lemma CloseInTime(rows: seq<Row>, now: int)
    requires BasePath(FirstMS(rows), Inputs(rows)) && LastMS(rows) <= now
    ensures var start, closeAt := StartMS(rows, now), CloseAt(LastMS(rows), now);
            BasePath(start, Inputs(rows)) && start <= Now(start, Inputs(rows)) <= closeAt <= now
  {
    assert rows != [] ==> AtMS(Last(Inputs(rows))) == LastMS(rows);
  }
}
