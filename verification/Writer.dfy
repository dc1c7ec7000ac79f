/** Writing an interval and its children (cmd/projector/writer.go). */
module Writers {
  import opened Text
  import opened Calendar
  import opened Intervals
  import opened Frames
  import opened Replica
  import opened StateStores
  import opened ChildOrder
  import Trackers

  /** A replica: its tables and the watermarks in front of them. */
  datatype Copy = Copy(tables: Tables, marks: Marks)

  /** The largest timestamp among a cycle's own and those of its children. */
  function HighTS(iv: Interval, ts: string): string {
    MaxTS(MaxTS(MaxTS(MaxTS(MaxTS(MaxTS(ts, Stamps(Spans, iv)), Stamps(Dwells, iv)), Stamps(Faults, iv)),
                      Stamps(Toggles, iv)), Stamps(Doors, iv)), Stamps(Configs, iv))
  }

  function WriteInterval(c: Copy, iv: Interval): Copy {
    var ts := Guarded(c.marks, "cycles", iv.endedMS);
    Copy(Written(c.tables, iv, ts), SetMarks(SetMark(c.marks, "cycles", ts), CHILD_TABLES, HighTS(iv, ts)))
  }

  function WriteIntervals(c: Copy, ivs: seq<Interval>): Copy {
    if ivs == [] then c else WriteInterval(WriteIntervals(c, Front(ivs)), Last(ivs))
  }

  lemma MappedSnoc<S, T>(f: S -> T, s: seq<S>, i: nat)
    requires i < |s|
    ensures Mapped(f, s[..i + 1]) == Mapped(f, s[..i]) + [f(s[i])]
  {
    assert Front(s[..i + 1]) == s[..i];
  }

  lemma MaxSnoc(ts: string, s: seq<int>, i: nat)
    requires i < |s|
    ensures MaxTS(ts, s[..i + 1]) == Text.Max(MaxTS(ts, s[..i]), EventTS(s[i]))
  {
    hide EventTS, Text.Max;
    assert Front(s[..i + 1]) == s[..i];
  }

  class Writer {
    const st: StateStore
    var cycles: seq<CycleRow>
    var spans: seq<Stored<OutSpan>>
    var dwells: seq<Stored<OutDwell>>
    var faults: seq<Stored<OutFault>>
    var toggles: seq<Stored<OutToggle>>
    var doors: seq<Stored<OutDoor>>
    var configs: seq<Stored<OutConfig>>

    ghost function View(): Copy
      reads this, st
    {
      Copy(Tables(cycles, spans, dwells, faults, toggles, doors, configs), st.marks)
    }

    /** Opens a replica. */
    constructor (st: StateStore, t: Tables)
      ensures this.st == st && View().tables == t
    {
      this.st := st;
      cycles, spans, dwells, faults := t.cycles, t.spans, t.dwells, t.faults;
      toggles, doors, configs := t.toggles, t.doors, t.configs;
    }

    method Guard(table: string, ms: int) returns (ts: string)
      ensures ts == Guarded(st.marks, table, ms)
    {
      hide EventTS, LexLess;
      ts := EventTS(ms);
      var last := st.Watermark(table);
      if last != "" && LexLess(ts, last) {
        ts := last;
      }
    }

    method WriteSpans(iv: Trackers.IntervalRecord, ts: string) returns (top: string)
      modifies this`spans
      ensures spans == old(spans) + Mapped(StoreSpan, iv.View().stateDurations)
      ensures top == MaxTS(ts, Stamps(Spans, iv.View()))
    {
      hide EventTS, DateUTC, Text.Max, Mapped, MaxTS;
      var s := iv.stateDurations;
      ghost var stamps := Stamps(Spans, iv.View());
      NothingYet(StoreSpan, ts);
      top := ts;
      for i := 0 to |s|
        invariant spans == old(spans) + Mapped(StoreSpan, s[..i]) && top == MaxTS(ts, stamps[..i])
      {
        MappedSnoc(StoreSpan, s, i);
        MaxSnoc(ts, stamps, i);
        var row := StoreSpan(s[i]);
        spans := spans + [row];
        top := Text.Max(top, row.eventTS);
      }
      assert s[..|s|] == s && stamps[..|s|] == stamps;
    }

    method WriteDwells(iv: Trackers.IntervalRecord, ts: string) returns (top: string)
      modifies this`dwells
      ensures dwells == old(dwells) + Mapped(StoreDwell, iv.View().stepDwells)
      ensures top == MaxTS(ts, Stamps(Dwells, iv.View()))
    {
      hide EventTS, DateUTC, Text.Max, Mapped, MaxTS;
      var s := iv.stepDwells;
      ghost var stamps := Stamps(Dwells, iv.View());
      NothingYet(StoreDwell, ts);
      top := ts;
      for i := 0 to |s|
        invariant dwells == old(dwells) + Mapped(StoreDwell, s[..i]) && top == MaxTS(ts, stamps[..i])
      {
        MappedSnoc(StoreDwell, s, i);
        MaxSnoc(ts, stamps, i);
        var row := StoreDwell(s[i]);
        dwells := dwells + [row];
        top := Text.Max(top, row.eventTS);
      }
      assert s[..|s|] == s && stamps[..|s|] == stamps;
    }

    /** Faults whose key is taken are not inserted, but their timestamps are tracked all the same. */
    method WriteFaults(iv: Trackers.IntervalRecord, ts: string) returns (top: string)
      modifies this`faults
      ensures faults == InsertFaults(old(faults), iv.View().faults)
      ensures top == MaxTS(ts, Stamps(Faults, iv.View()))
    {
      hide EventTS, DateUTC, Text.Max, MaxTS;
      var s := iv.faults;
      ghost var stamps := Stamps(Faults, iv.View());
      NothingYet(StoreFault, ts);
      top := ts;
      for i := 0 to |s|
        invariant faults == InsertFaults(old(faults), s[..i]) && top == MaxTS(ts, stamps[..i])
      {
        assert Front(s[..i + 1]) == s[..i];
        MaxSnoc(ts, stamps, i);
        var row := StoreFault(s[i]);
        if !HasFault(faults, s[i].faultKey) {
          faults := faults + [row];
        }
        top := Text.Max(top, row.eventTS);
      }
      assert s[..|s|] == s && stamps[..|s|] == stamps;
    }

    method WriteToggles(iv: Trackers.IntervalRecord, ts: string) returns (top: string)
      modifies this`toggles
      ensures toggles == old(toggles) + Mapped(StoreToggle, iv.View().toggles)
      ensures top == MaxTS(ts, Stamps(Toggles, iv.View()))
    {
      hide EventTS, DateUTC, Text.Max, Mapped, MaxTS;
      var s := iv.toggles;
      ghost var stamps := Stamps(Toggles, iv.View());
      NothingYet(StoreToggle, ts);
      top := ts;
      for i := 0 to |s|
        invariant toggles == old(toggles) + Mapped(StoreToggle, s[..i]) && top == MaxTS(ts, stamps[..i])
      {
        MappedSnoc(StoreToggle, s, i);
        MaxSnoc(ts, stamps, i);
        var row := StoreToggle(s[i]);
        toggles := toggles + [row];
        top := Text.Max(top, row.eventTS);
      }
      assert s[..|s|] == s && stamps[..|s|] == stamps;
    }

    method WriteDoors(iv: Trackers.IntervalRecord, ts: string) returns (top: string)
      modifies this`doors
      ensures doors == old(doors) + Mapped(StoreDoor, iv.View().doorEvents)
      ensures top == MaxTS(ts, Stamps(Doors, iv.View()))
    {
      hide EventTS, DateUTC, Text.Max, Mapped, MaxTS;
      var s := iv.doorEvents;
      ghost var stamps := Stamps(Doors, iv.View());
      NothingYet(StoreDoor, ts);
      top := ts;
      for i := 0 to |s|
        invariant doors == old(doors) + Mapped(StoreDoor, s[..i]) && top == MaxTS(ts, stamps[..i])
      {
        MappedSnoc(StoreDoor, s, i);
        MaxSnoc(ts, stamps, i);
        var row := StoreDoor(s[i]);
        doors := doors + [row];
        top := Text.Max(top, row.eventTS);
      }
      assert s[..|s|] == s && stamps[..|s|] == stamps;
    }

    method WriteConfigs(iv: Trackers.IntervalRecord, ts: string) returns (top: string)
      modifies this`configs
      ensures configs == old(configs) + Mapped(StoreConfig, iv.View().configs)
      ensures top == MaxTS(ts, Stamps(Configs, iv.View()))
    {
      hide EventTS, DateUTC, Text.Max, Mapped, MaxTS;
      var s := iv.configs;
      ghost var stamps := Stamps(Configs, iv.View());
      NothingYet(StoreConfig, ts);
      top := ts;
      for i := 0 to |s|
        invariant configs == old(configs) + Mapped(StoreConfig, s[..i]) && top == MaxTS(ts, stamps[..i])
      {
        MappedSnoc(StoreConfig, s, i);
        MaxSnoc(ts, stamps, i);
        var row := StoreConfig(s[i]);
        configs := configs + [row];
        top := Text.Max(top, row.eventTS);
      }
      assert s[..|s|] == s && stamps[..|s|] == stamps;
    }

    method WriteCycle(iv: Trackers.IntervalRecord, cycleTS: string)
      modifies this`cycles
      ensures cycles == UpsertCycle(old(cycles), CycleOf(iv.View(), cycleTS))
    {
      hide UpsertCycle;
      var row := CycleRow(cycleTS, DateUTC(iv.startedMS), iv.orderKey, iv.isProduction, iv.result, iv.startedMS,
                          iv.endedMS, iv.endedMS - iv.startedMS, iv.recipeID, iv.glassCount);
      cycles := UpsertCycle(cycles, row);
    }

    /** The cycle and its children, in insertion order. */
    method WriteRows(iv: Trackers.IntervalRecord, cycleTS: string) returns (top: string)
      modifies this
      ensures View() == old(View()).(tables := Written(old(View()).tables, iv.View(), cycleTS))
      ensures top == HighTS(iv.View(), cycleTS)
    {
      hide Mapped, MaxTS, UpsertCycle, InsertFaults, Stamps, CycleOf, Trackers.IntervalRecord.View;
      WriteCycle(iv, cycleTS);
      top := WriteSpans(iv, cycleTS);
      top := WriteDwells(iv, top);
      top := WriteFaults(iv, top);
      top := WriteToggles(iv, top);
      top := WriteDoors(iv, top);
      top := WriteConfigs(iv, top);
    }

    method SetChildWatermarks(ts: string)
      requires st.Valid()
      modifies st`marks, st`durableMarks
      ensures st.Valid() && st.marks == SetMarks(old(st.marks), CHILD_TABLES, ts)
    {
      hide SetMark;
      for i := 0 to |CHILD_TABLES|
        invariant st.Valid() && st.marks == SetMarks(old(st.marks), CHILD_TABLES[..i], ts)
      {
        assert Front(CHILD_TABLES[..i + 1]) == CHILD_TABLES[..i];
        st.SetWatermark(CHILD_TABLES[i], ts);
      }
      assert CHILD_TABLES[..|CHILD_TABLES|] == CHILD_TABLES;
    }

    method FlushInterval(iv: Trackers.IntervalRecord)
      requires st.Valid()
      modifies this, st`marks, st`durableMarks
      ensures st.Valid() && View() == WriteInterval(old(View()), iv.View())
      ensures st.durableCursors == old(st.durableCursors)
    {
      hide Written, HighTS, SetMark, SetMarks, Guarded;
      var cycleTS := Guard("cycles", iv.endedMS);
      var top := WriteRows(iv, cycleTS);
      st.SetWatermark("cycles", cycleTS);
      SetChildWatermarks(top);
    }
  }

  lemma NothingYet<S, T>(f: S -> T, ts: string)
    ensures Mapped(f, []) == [] && MaxTS(ts, []) == ts
  {
  }
}
