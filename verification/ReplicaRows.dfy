/** What the rows of the replica say (cmd/projector/writer.go): their timestamps and dates, the order's metadata, and
    the watermarks in front of them. */
module ReplicaRows {
  import opened Source
  import opened Text
  import opened Calendar
  import opened Intervals
  import opened Frames
  import opened ChildOrder
  import opened Replica
  import opened Writers
  import opened EmitOrder
  import StateStores
  import LongOrders
  import Finality
  import RunRollups

  // ---------------------------------------------------------------------------
  // Timestamps and dates
  // ---------------------------------------------------------------------------

  predicate Says(eventTS: string, dateUTC: string, endMS: int, startMS: int) {
    eventTS == EventTS(endMS) && dateUTC == DateUTC(startMS)
  }

  /** A row is emitted at its end and dated at its start. */
  ghost predicate ChildrenStamped(t: Tables) {
    && (forall r | r in t.spans :: Says(r.eventTS, r.dateUTC, r.row.exitedAtMS, r.row.enteredAtMS))
    && (forall r | r in t.dwells :: Says(r.eventTS, r.dateUTC, r.row.endedAtMS, r.row.startedAtMS))
    && (forall r | r in t.faults :: Says(r.eventTS, r.dateUTC, r.row.raisedAtMS, r.row.raisedAtMS))
    && (forall r | r in t.toggles :: Says(r.eventTS, r.dateUTC, r.row.eventAtMS, r.row.eventAtMS))
    && (forall r | r in t.doors :: Says(r.eventTS, r.dateUTC, r.row.closedAtMS, r.row.openedAtMS))
    && (forall r | r in t.configs :: Says(r.eventTS, r.dateUTC, r.row.changedAtMS, r.row.changedAtMS))
  }

  lemma {:induction false} InsertedStamped(faults: seq<Stored<OutFault>>, more: seq<OutFault>)
    requires forall r | r in faults :: Says(r.eventTS, r.dateUTC, r.row.raisedAtMS, r.row.raisedAtMS)
    ensures forall r | r in InsertFaults(faults, more) ::
              Says(r.eventTS, r.dateUTC, r.row.raisedAtMS, r.row.raisedAtMS)
  {
    hide EventTS, DateUTC, HasFault;
    if more != [] {
      InsertedStamped(faults, Front(more));
    }
  }

  lemma OneStamped(c: Copy, iv: Interval)
    requires ChildrenStamped(c.tables)
    ensures ChildrenStamped(WriteInterval(c, iv).tables)
  {
    hide EventTS, DateUTC, InsertFaults, UpsertCycle, HighTS, SetMark, SetMarks, Guarded;
    InsertedStamped(c.tables.faults, iv.faults);
  }

  /** Whatever is written, child rows carry the emit timestamp of their end and the date of their start. */
  lemma {:induction false} WrittenStamped(ivs: seq<Interval>)
    ensures ChildrenStamped(WriteIntervals(EMPTY, ivs).tables)
  {
    hide WriteInterval, EventTS, DateUTC;
    if ivs != [] {
      WrittenStamped(Front(ivs));
      OneStamped(WriteIntervals(EMPTY, Front(ivs)), Last(ivs));
    }
  }

  // ---------------------------------------------------------------------------
  // Recipe and glass count
  // ---------------------------------------------------------------------------

  /** The first recipe known for a key. */
  function FirstRecipe(ivs: seq<Interval>, key: string): Option<int> {
    if ivs == [] then None
    else if FirstRecipe(Front(ivs), key).Some? then FirstRecipe(Front(ivs), key)
    else if Last(ivs).orderKey == key then Last(ivs).recipeID else None
  }

  /** The first glass count known for a key. */
  function FirstGlasses(ivs: seq<Interval>, key: string): Option<int> {
    if ivs == [] then None
    else if FirstGlasses(Front(ivs), key).Some? then FirstGlasses(Front(ivs), key)
    else if Last(ivs).orderKey == key then Last(ivs).glassCount else None
  }

  ghost predicate Filled(rows: seq<CycleRow>, ivs: seq<Interval>) {
    forall k | 0 <= k < |rows| ::
      rows[k].recipeID == FirstRecipe(ivs, rows[k].orderID) && rows[k].glassCount == FirstGlasses(ivs, rows[k].orderID)
  }

  lemma {:induction false} UpsertFills(rows: seq<CycleRow>, c: CycleRow)
    requires LongOrders.OneRowEach(rows)
    ensures var r := UpsertCycle(rows, c);
            forall k | 0 <= k < |r| ::
              if k >= |rows| then r[k] == c
              else if rows[k].orderID != c.orderID then r[k] == rows[k]
              else && r[k].orderID == c.orderID
                   && r[k].recipeID == (if rows[k].recipeID.Some? then rows[k].recipeID else c.recipeID)
                   && r[k].glassCount == (if rows[k].glassCount.Some? then rows[k].glassCount else c.glassCount)
  {
    LongOrders.UpsertShape(rows, c);
    if rows == [] {
    } else if rows[0].orderID != c.orderID {
      var tail := rows[1..];
      assert forall k | 0 <= k < |tail| :: tail[k] == rows[k + 1];
      UpsertFills(tail, c);
      assert forall k | 1 <= k <= |tail| :: rows[k] == tail[k - 1];
      assert forall k | 1 <= k < |UpsertCycle(rows, c)| :: UpsertCycle(rows, c)[k] == UpsertCycle(tail, c)[k - 1];
    }
  }

  lemma {:induction false} NothingKnown(ivs: seq<Interval>, key: string)
    requires !LongOrders.HasKey(ivs, key)
    ensures FirstRecipe(ivs, key) == None && FirstGlasses(ivs, key) == None
  {
    if ivs != [] {
      assert forall k | 0 <= k < |Front(ivs)| :: Front(ivs)[k] == ivs[k];
      assert Last(ivs) == ivs[|ivs| - 1];
      NothingKnown(Front(ivs), key);
    }
  }

  lemma OneFills(rows: seq<CycleRow>, ivs: seq<Interval>, iv: Interval, c: CycleRow)
    requires LongOrders.OneRowEach(rows) && Filled(rows, ivs)
    requires Finality.HasOrder(rows, iv.orderKey) <==> LongOrders.HasKey(ivs, iv.orderKey)
    requires c.orderID == iv.orderKey && c.recipeID == iv.recipeID && c.glassCount == iv.glassCount
    ensures Filled(UpsertCycle(rows, c), ivs + [iv])
  {
    hide UpsertCycle, LongOrders.HasKey, LongOrders.OneRowEach;
    UpsertFills(rows, c);
    LongOrders.UpsertShape(rows, c);
    assert Front(ivs + [iv]) == ivs;
    if !LongOrders.HasKey(ivs, iv.orderKey) {
      NothingKnown(ivs, iv.orderKey);
    }
  }

  /** However late it comes, a cycle has the recipe and the glass count known first for its order. */
  lemma {:induction false} MetadataFilled(ivs: seq<Interval>)
    ensures Filled(WriteIntervals(EMPTY, ivs).tables.cycles, ivs)
  {
    hide Guarded, SetMark, UpsertCycle, Finality.HasOrder, LongOrders.OneRowEach, Filled, DateUTC, SetMarks, HighTS,
      InsertFaults, Mapped;
    if ivs == [] {
      NothingFilled();
    } else {
      var front, iv := Front(ivs), Last(ivs);
      assert ivs == front + [iv];
      MetadataFilled(front);
      var d := WriteIntervals(EMPTY, front);
      var none := Finality.CycleTable([], map[]);
      LongOrders.FirstIntervalWins(front);
      RunRollups.CyclesWritten(EMPTY, none, front);
      OneFills(d.tables.cycles, front, iv, CycleOf(iv, Guarded(d.marks, "cycles", iv.endedMS)));
    }
  }

  lemma NothingFilled()
    ensures Filled([], [])
  {
  }

  // ---------------------------------------------------------------------------
  // Watermarks
  // ---------------------------------------------------------------------------

  function ChildTable(c: Child): string {
    match c
    case Spans => "state_durations"
    case Dwells => "step_dwells"
    case Faults => "fault_events"
    case Toggles => "sensor_toggles"
    case Doors => "door_events"
    case Configs => "config_history"
    case Events => "fsm_events"
  }

  /** No row of a table is ahead of the table's watermark. */
  ghost predicate Marked(c: Copy) {
    && (forall k | 0 <= k < |c.tables.cycles| :: LexLe(c.tables.cycles[k].eventTS, MarkOf(c.marks, "cycles")))
    && forall ch, k | 0 <= k < |ChildTS(ch, c.tables)| ::
         LexLe(ChildTS(ch, c.tables)[k], MarkOf(c.marks, ChildTable(ch)))
  }

  lemma MarkMoves(marks: Marks, table: string, ts: string, other: string)
    ensures MarkOf(SetMark(marks, table, ts), other)
         == if other == table then Text.Max(MarkOf(marks, table), ts) else MarkOf(marks, other)
  {
    hide LexLess;
    StateStores.EmptyIsLeast(ts);
    LexTrichotomy(MarkOf(marks, table), ts);
  }

  lemma {:induction false} MarksMove(marks: Marks, tables: seq<string>, ts: string, table: string)
    ensures MarkOf(SetMarks(marks, tables, ts), table)
         == if table in tables then Text.Max(MarkOf(marks, table), ts) else MarkOf(marks, table)
  {
    hide LexLess, MarkOf, SetMark;
    if tables != [] {
      var front := Front(tables);
      assert tables == front + [Last(tables)];
      MarksMove(marks, front, ts, table);
      MarkMoves(SetMarks(marks, front, ts), Last(tables), ts, table);
      MaxTwice(MarkOf(marks, table), ts);
    }
  }

  lemma MaxTwice(a: string, b: string)
    ensures Text.Max(Text.Max(a, b), b) == Text.Max(a, b)
  {
    LexTrichotomy(b, b);
  }

  lemma {:induction false} MaxCovers(ts: string, stamps: seq<int>)
    ensures LexLe(ts, MaxTS(ts, stamps)) && forall k | 0 <= k < |stamps| :: LexLe(EventTS(stamps[k]), MaxTS(ts, stamps))
  {
    hide EventTS, LexLe, Text.Max;
    if stamps == [] {
      LexLeReflexive(ts);
    } else {
      var m, last := MaxTS(ts, Front(stamps)), EventTS(Last(stamps));
      MaxCovers(ts, Front(stamps));
      StateStores.LexLeMax(m, last);
      LexLeTransitive(ts, m, Text.Max(m, last));
      forall k | 0 <= k < |stamps| ensures LexLe(EventTS(stamps[k]), Text.Max(m, last)) {
        if k < |stamps| - 1 {
          assert Front(stamps)[k] == stamps[k];
          LexLeTransitive(EventTS(stamps[k]), m, Text.Max(m, last));
        }
      }
    }
  }

  /** The tracked timestamp covers the cycle and all its children. */
  lemma HighCovers(iv: Interval, ts: string, c: Child)
    requires c != Events
    ensures LexLe(ts, HighTS(iv, ts))
    ensures forall k | 0 <= k < |Stamps(c, iv)| :: LexLe(EventTS(Stamps(c, iv)[k]), HighTS(iv, ts))
  {
    hide EventTS, LexLe, MaxTS, Stamps;
    var a := MaxTS(ts, Stamps(Spans, iv));
    var b := MaxTS(a, Stamps(Dwells, iv));
    var d := MaxTS(b, Stamps(Faults, iv));
    var e := MaxTS(d, Stamps(Toggles, iv));
    var f := MaxTS(e, Stamps(Doors, iv));
    var g := MaxTS(f, Stamps(Configs, iv));
    MaxCovers(ts, Stamps(Spans, iv));
    MaxCovers(a, Stamps(Dwells, iv));
    MaxCovers(b, Stamps(Faults, iv));
    MaxCovers(d, Stamps(Toggles, iv));
    MaxCovers(e, Stamps(Doors, iv));
    MaxCovers(f, Stamps(Configs, iv));
    LexLeTransitive(e, f, g);
    LexLeTransitive(d, e, g);
    LexLeTransitive(b, d, g);
    LexLeTransitive(a, b, g);
    LexLeTransitive(ts, a, g);
    forall k | 0 <= k < |Stamps(c, iv)| ensures LexLe(EventTS(Stamps(c, iv)[k]), g) {
      var s := EventTS(Stamps(c, iv)[k]);
      match c {
        case Spans => LexLeTransitive(s, a, g);
        case Dwells => LexLeTransitive(s, b, g);
        case Faults => LexLeTransitive(s, d, g);
        case Toggles => LexLeTransitive(s, e, g);
        case Doors => LexLeTransitive(s, f, g);
        case _ =>
      }
    }
  }

  /** The emit timestamps of a child table after one more interval are the old ones and some of the interval's own. */
  lemma OneMoreWritten(t: Tables, iv: Interval, ts: string, ch: Child, k: nat)
    requires k < |ChildTS(ch, Written(t, iv, ts))| && ch != Events
    ensures var s, before := ChildTS(ch, Written(t, iv, ts)), ChildTS(ch, t);
            || (k < |before| && s[k] == before[k])
            || exists m :: 0 <= m < |Stamps(ch, iv)| && s[k] == EventTS(Stamps(ch, iv)[m])
  {
    hide EventTS, ChildTS, Written, Stamps;
    if ch == Faults {
      OneMoreFault(t, iv, ts, k);
    } else {
      WrittenTS(t, iv, ts, ch);
      var m := k - |ChildTS(ch, t)|;
      assert m >= 0 ==> ChildTS(ch, Written(t, iv, ts))[k] == Texts(Stamps(ch, iv))[m];
    }
  }

  lemma OneMoreFault(t: Tables, iv: Interval, ts: string, k: nat)
    requires k < |ChildTS(Faults, Written(t, iv, ts))|
    ensures var s, before := ChildTS(Faults, Written(t, iv, ts)), ChildTS(Faults, t);
            || (k < |before| && s[k] == before[k])
            || exists m :: 0 <= m < |Stamps(Faults, iv)| && s[k] == EventTS(Stamps(Faults, iv)[m])
  {
    hide EventTS, DateUTC, UpsertCycle, Stamps, InsertFaults, Mapped;
    InsertedTS(t.faults, iv.faults, k);
    FaultStamps(iv);
  }

  lemma FaultStamps(iv: Interval)
    ensures |Stamps(Faults, iv)| == |iv.faults|
    ensures forall m | 0 <= m < |iv.faults| :: Stamps(Faults, iv)[m] == iv.faults[m].raisedAtMS
  {
  }

  lemma {:induction false} InsertedTS(faults: seq<Stored<OutFault>>, more: seq<OutFault>, k: nat)
    requires k < |InsertFaults(faults, more)|
    ensures var r := InsertFaults(faults, more)[k];
            (k < |faults| && r == faults[k]) || exists m :: 0 <= m < |more| && r.eventTS == EventTS(more[m].raisedAtMS)
  {
    hide EventTS, DateUTC, HasFault;
    if more != [] {
      var r := InsertFaults(faults, Front(more));
      if k < |r| {
        InsertedTS(faults, Front(more), k);
      } else {
        assert InsertFaults(faults, more)[k].eventTS == EventTS(more[|more| - 1].raisedAtMS);
      }
    }
  }

  lemma ChildTables(c: Child)
    ensures c != Events ==> ChildTable(c) in CHILD_TABLES && ChildTable(c) != "cycles"
    ensures "cycles" !in CHILD_TABLES
  {
    assert CHILD_TABLES[0] == "state_durations" && CHILD_TABLES[1] == "step_dwells" && CHILD_TABLES[2] == "fault_events"
           && CHILD_TABLES[3] == "sensor_toggles" && CHILD_TABLES[4] == "config_history"
           && CHILD_TABLES[5] == "door_events";
  }

  lemma CycleMarked(c: Copy, iv: Interval)
    requires Marked(c)
    ensures var d := WriteInterval(c, iv);
            forall k | 0 <= k < |d.tables.cycles| :: LexLe(d.tables.cycles[k].eventTS, MarkOf(d.marks, "cycles"))
  {
    hide EventTS, DateUTC, LexLe, UpsertCycle, SetMark, SetMarks, MarkOf, HighTS, InsertFaults, Mapped, ChildTS,
      Text.Max, Guarded;
    var ts := Guarded(c.marks, "cycles", iv.endedMS);
    var d, before := WriteInterval(c, iv), MarkOf(c.marks, "cycles");
    ChildTables(Spans);
    MarkMoves(c.marks, "cycles", ts, "cycles");
    MarksMove(SetMark(c.marks, "cycles", ts), CHILD_TABLES, HighTS(iv, ts), "cycles");
    StateStores.LexLeMax(before, ts);
    UpsertTS(c.tables.cycles, CycleOf(iv, ts));
    forall k | 0 <= k < |d.tables.cycles| ensures LexLe(d.tables.cycles[k].eventTS, Text.Max(before, ts)) {
      if k < |c.tables.cycles| {
        LexLeTransitive(c.tables.cycles[k].eventTS, before, Text.Max(before, ts));
      }
    }
  }

  lemma ChildMarked(c: Copy, iv: Interval, ch: Child, k: nat)
    requires Marked(c) && k < |ChildTS(ch, WriteInterval(c, iv).tables)| && ch != Events
    ensures var d := WriteInterval(c, iv); LexLe(ChildTS(ch, d.tables)[k], MarkOf(d.marks, ChildTable(ch)))
  {
    hide EventTS, LexLe, Written, SetMark, SetMarks, MarkOf, HighTS, ChildTS, Text.Max, Guarded, ChildTable, Stamps;
    var ts := Guarded(c.marks, "cycles", iv.endedMS);
    var high, before := HighTS(iv, ts), MarkOf(c.marks, ChildTable(ch));
    var d := WriteInterval(c, iv);
    ChildTables(ch);
    MarkMoves(c.marks, "cycles", ts, ChildTable(ch));
    MarksMove(SetMark(c.marks, "cycles", ts), CHILD_TABLES, high, ChildTable(ch));
    StateStores.LexLeMax(before, high);
    OneMoreWritten(c.tables, iv, ts, ch, k);
    HighCovers(iv, ts, ch);
    var s := ChildTS(ch, d.tables)[k];
    if k < |ChildTS(ch, c.tables)| && s == ChildTS(ch, c.tables)[k] {
      LexLeTransitive(s, before, Text.Max(before, high));
    } else {
      LexLeTransitive(s, high, Text.Max(before, high));
    }
  }

  lemma NoRawEvents(t: Tables)
    ensures ChildTS(Events, t) == []
  {
  }

  /** Whatever is written, no table is ahead of its watermark. */
  lemma {:induction false} WrittenMarked(ivs: seq<Interval>)
    ensures Marked(WriteIntervals(EMPTY, ivs))
  {
    hide WriteInterval, ChildTS, LexLe;
    if ivs == [] {
      NothingMarked();
    } else {
      var d, iv := WriteIntervals(EMPTY, Front(ivs)), Last(ivs);
      WrittenMarked(Front(ivs));
      CycleMarked(d, iv);
      NoRawEvents(WriteInterval(d, iv).tables);
      forall ch, k | 0 <= k < |ChildTS(ch, WriteInterval(d, iv).tables)|
        ensures LexLe(ChildTS(ch, WriteInterval(d, iv).tables)[k],
                      MarkOf(WriteInterval(d, iv).marks, ChildTable(ch)))
      {
        ChildMarked(d, iv, ch, k);
      }
    }
  }

  lemma NothingMarked()
    ensures Marked(EMPTY)
  {
  }
}
