/** The tick and the flushes around it (cmd/projector/main.go): read, merge, apply, write, aggregate. */
module Projectors {
  import opened Source
  import opened Sorting
  import opened Merge
  import opened TrackerSpec
  import opened Frames
  import opened Pipeline
  import opened Replica
  import opened StateStores
  import opened Writers
  import opened Trackers
  import opened RollupEmitters

  // ---------------------------------------------------------------------------
  // Reading
  // ---------------------------------------------------------------------------

  function TableName(k: nat): string
    requires k < TABLES
  {
    if k == 0 then "orders" else if k == 1 then "fsm_events" else if k == 2 then "fsm_step_runs"
    else if k == 3 then "faults" else "sensor_input_toggles"
  }

  lemma TableNamesDiffer(j: nat, k: nat)
    requires j < TABLES && k < TABLES && TableName(j) == TableName(k)
    ensures j == k
  {
    assert TableName(j)[0] == TableName(k)[0] && |TableName(j)| == |TableName(k)|;
  }

  /** The rows of a table in id order with a larger id, `batch` of them at most. */
  function RowsAfter(t: seq<Row>, after: int, batch: nat): seq<Row> {
    if t == [] || batch == 0 then []
    else if SrcID(t[0]) > after then [t[0]] + RowsAfter(t[1..], after, batch - 1)
    else RowsAfter(t[1..], after, batch)
  }

  /** The cursor of a table that was read up to a position. */
  function IDBefore(t: seq<Row>, p: nat): int
    requires p <= |t|
  {
    if p == 0 then 0 else SrcID(t[p - 1])
  }

  lemma PageOfTail(t: seq<Row>, p: nat, batch: nat)
    requires t != [] && p <= |t| && batch > 0
    ensures if p == 0 then Page(t, 0, batch) == [t[0]] + Page(t[1..], 0, batch - 1)
            else Page(t, p, batch) == Page(t[1..], p - 1, batch)
  {
  }

  lemma {:induction false} ReadsPage(t: seq<Row>, after: int, p: nat, batch: nat)
    requires p <= |t| && forall i | 0 <= i < |t| :: SrcID(t[i]) > after <==> i >= p
    ensures RowsAfter(t, after, batch) == Page(t, p, batch)
  {
    hide SrcID, Page;
    if t == [] || batch == 0 {
      NoPage(t, p, batch);
    } else {
      PageOfTail(t, p, batch);
      assert forall i | 0 <= i < |t| - 1 :: t[1..][i] == t[i + 1];
      if p == 0 {
        ReadsPage(t[1..], after, 0, batch - 1);
      } else {
        ReadsPage(t[1..], after, p - 1, batch);
      }
    }
  }

  lemma NoPage(t: seq<Row>, p: nat, batch: nat)
    requires p <= |t| && (t == [] || batch == 0)
    ensures Page(t, p, batch) == []
  {
  }

  lemma CursorSplits(t: seq<Row>, k: nat, p: nat)
    requires ValidTable(t, k) && p <= |t|
    ensures forall i | 0 <= i < |t| :: SrcID(t[i]) > IDBefore(t, p) <==> i >= p
  {
  }

  /** The stored cursors stand at these positions. */
  ghost predicate AtPos(cursors: map<string, SourceCursor>, ts: seq<seq<Row>>, pos: seq<nat>) {
    ValidPos(ts, pos)
    && forall k | 0 <= k < TABLES :: CursorOf(cursors, TableName(k)).lastID == IDBefore(ts[k], pos[k])
  }

  // ---------------------------------------------------------------------------
  // Cursors
  // ---------------------------------------------------------------------------

  /** The id applied last, per table. */
  function LastIDs(rows: seq<Row>): map<string, int> {
    if rows == [] then map[] else LastIDs(Front(rows))[TableName(Kind(Last(rows))) := SrcID(Last(rows))]
  }

  lemma {:induction false} LastIDIsLast(rows: seq<Row>, k: nat)
    requires k < TABLES
    ensures var got := Filter(OfKind(k), rows);
            && (TableName(k) in LastIDs(rows) <==> got != [])
            && (got != [] ==> LastIDs(rows)[TableName(k)] == SrcID(Last(got)))
  {
    if rows != [] {
      LastIDIsLast(Front(rows), k);
      if Kind(Last(rows)) != k && TableName(Kind(Last(rows))) == TableName(k) {
        TableNamesDiffer(Kind(Last(rows)), k);
      }
    }
  }

  /** The cursors of the first n tables moved to what was applied. */
  function Advanced(cursors: map<string, SourceCursor>, applied: map<string, int>, n: nat := TABLES)
    : map<string, SourceCursor>
    requires n <= TABLES
  {
    if n == 0 then cursors
    else
      var c, table := Advanced(cursors, applied, n - 1), TableName(n - 1);
      if table in applied then c[table := SourceCursor(applied[table], 0)] else c
  }

  /** The cursors a tick read. */
  ghost predicate ReadCursors(read: map<string, int>, ts: seq<seq<Row>>, pos: seq<nat>, useStepRuns: bool)
    requires ValidPos(ts, pos)
  {
    forall k | 0 <= k < TABLES && (k != 2 || useStepRuns) ::
      TableName(k) in read && read[TableName(k)] == IDBefore(ts[k], pos[k])
  }

  /** What was applied of a table lies beyond the cursor that was read. */
  predicate Moves(applied: map<string, int>, read: map<string, int>, table: string) {
    table in applied ==> applied[table] > if table in read then read[table] else 0
  }

  lemma {:induction false} AdvancedAt(cursors: map<string, SourceCursor>, applied: map<string, int>, k: nat, n: nat)
    requires k < TABLES && n <= TABLES
    ensures CursorOf(Advanced(cursors, applied, n), TableName(k))
         == if k < n && TableName(k) in applied then SourceCursor(applied[TableName(k)], 0)
            else CursorOf(cursors, TableName(k))
  {
    hide TableName;
    if n != 0 {
      AdvancedAt(cursors, applied, k, n - 1);
      if TableName(n - 1) == TableName(k) {
        TableNamesDiffer(n - 1, k);
      }
    }
  }

  lemma ReadsForward(read: map<string, int>, ts: seq<seq<Row>>, pos: seq<nat>, batch: nat, useStepRuns: bool, k: nat)
    requires ValidTables(ts) && ValidPos(ts, pos) && ReadCursors(read, ts, pos, useStepRuns) && k < TABLES
    requires !useStepRuns ==> ts[2] == []
    ensures Moves(LastIDs(Applied(ts, pos, batch)), read, TableName(k))
  {
    hide Applied, LastIDs, TableName, Filter;
    var got := Filter(OfKind(k), Applied(ts, pos, batch));
    TickTakesNextRows(ts, pos, batch, k);
    LastIDIsLast(Applied(ts, pos, batch), k);
    if got != [] {
      assert Last(got) == ts[k][pos[k] + |got| - 1];
      CursorSplits(ts[k], k, pos[k]);
    }
  }

  /** Advancing the cursors to the applied rows moves the stored positions exactly as the merge does. */
  lemma AdvanceReachesNextPos(cursors: map<string, SourceCursor>, ts: seq<seq<Row>>, pos: seq<nat>, batch: nat)
    requires ValidTables(ts) && AtPos(cursors, ts, pos)
    ensures AtPos(Advanced(cursors, LastIDs(Applied(ts, pos, batch))), ts, NextPos(ts, pos, batch))
  {
    hide Applied, LastIDs, Advanced, TableName, Filter;
    var rows := Applied(ts, pos, batch);
    var next := NextPos(ts, pos, batch);
    NextPosValid(ts, pos, batch);
    forall k | 0 <= k < TABLES
      ensures CursorOf(Advanced(cursors, LastIDs(rows)), TableName(k)).lastID == IDBefore(ts[k], next[k])
    {
      TickTakesNextRows(ts, pos, batch, k);
      LastIDIsLast(rows, k);
      AdvancedAt(cursors, LastIDs(rows), k, TABLES);
      var got := Filter(OfKind(k), rows);
      if got != [] {
        assert Last(got) == ts[k][next[k] - 1];
      }
    }
  }

  function LastAt(rows: seq<Row>): Option<int> {
    if rows == [] then None else Some(At(Last(rows)))
  }

  datatype Change = Change(key: string, oldValue: string, newValue: string)

  /** The changes of some keys, each once, in whatever order they were found. */
  ghost predicate DiffOn(previous: map<string, string>, config: map<string, string>, changes: seq<Change>,
                         keys: set<string>) {
    && (forall j, k | 0 <= j < k < |changes| :: changes[j].key != changes[k].key)
    && forall c :: c in changes <==>
         c.key in keys && c.key in previous && c.key in config
         && c.oldValue == previous[c.key] != config[c.key] == c.newValue
  }

  /** The values that differ from the snapshot. */
  ghost predicate IsDiff(previous: map<string, string>, config: map<string, string>, changes: seq<Change>) {
    DiffOn(previous, config, changes, config.Keys)
  }

  /** What a tick does about the configuration: nothing unless it applied a row. */
  ghost predicate ConfigDrained(previous: map<string, string>, config: map<string, string>, after: map<string, string>,
                                rows: seq<Row>, changes: seq<Change>) {
    if rows == [] then after == previous && changes == []
    else after == previous + config && IsDiff(previous, config, changes)
  }

  lemma NothingDiffers(previous: map<string, string>, config: map<string, string>)
    ensures DiffOn(previous, config, [], config.Keys - config.Keys)
  {
  }

  lemma OneKeyMore(previous: map<string, string>, config: map<string, string>, changes: seq<Change>, keys: set<string>,
                   k: string)
    requires DiffOn(previous, config, changes, keys) && k in config && k !in keys
    ensures var more := if k in previous && previous[k] != config[k] then [Change(k, previous[k], config[k])] else [];
            DiffOn(previous, config, changes + more, keys + {k})
  {
    var more := if k in previous && previous[k] != config[k] then [Change(k, previous[k], config[k])] else [];
    forall j | 0 <= j < |changes| ensures changes[j].key != k {
      assert changes[j] in changes;
    }
    forall c ensures c in changes + more <==> c in changes || c in more {
    }
  }

  lemma AllKeys(previous: map<string, string>, config: map<string, string>, changes: seq<Change>)
    requires DiffOn(previous, config, changes, config.Keys - {})
    ensures IsDiff(previous, config, changes)
  {
    assert config.Keys - {} == config.Keys;
  }

  lemma ConfigInputsMore(changes: seq<Change>, c: Change, at: int)
    ensures ConfigInputs(changes + [c], at) == ConfigInputs(changes, at) + [Config(c.key, c.oldValue, c.newValue, at)]
  {
  }

  /** A configuration that was not seen yet, or is the one seen last, brings no change. */
  lemma SameConfigIsQuiet(previous: map<string, string>, config: map<string, string>, changes: seq<Change>)
    requires IsDiff(previous, config, changes) && (previous == map[] || previous == config)
    ensures changes == []
  {
    HeadIn(changes);
  }

  lemma HeadIn<T>(s: seq<T>)
    ensures s != [] ==> s[0] in s
  {
  }

  /** What a tick feeds the tracker: the rows, and the configuration changes at the instant of the last row. */
  function TickInputs(rows: seq<Row>, changes: seq<Change>): seq<Input> {
    Inputs(rows) + if rows == [] then [] else ConfigInputs(changes, At(Last(rows)))
  }

  function ConfigInputs(changes: seq<Change>, at: int): seq<Input> {
    seq(|changes|, k requires 0 <= k < |changes| =>
      Config(changes[k].key, changes[k].oldValue, changes[k].newValue, at))
  }

  lemma RunMore(cfg: Settings, t: State, inputs: seq<Input>, i: Input)
    ensures Run(cfg, t, inputs + [i]) == Step(cfg, Run(cfg, t, inputs), i)
  {
    hide Step;
    assert Front(inputs + [i]) == inputs;
  }

  lemma InputsMore(rows: seq<Row>, i: nat)
    requires i < |rows|
    ensures Inputs(rows[..i + 1]) == Inputs(rows[..i]) + [Apply(rows[i])]
  {
  }

  lemma LastIDsMore(rows: seq<Row>, i: nat)
    requires i < |rows|
    ensures LastIDs(rows[..i + 1]) == LastIDs(rows[..i])[TableName(Kind(rows[i])) := SrcID(rows[i])]
    ensures LastAt(rows[..i + 1]) == Some(At(rows[i]))
  {
    hide TableName;
    assert Front(rows[..i + 1]) == rows[..i];
  }

  /** The rows up to the horizon, applied one by one. */
  method ApplyItems(trk: Tracker, items: seq<Row>, safe: Option<int>)
    returns (applied: map<string, int>, latest: Option<int>)
    requires trk.Valid()
    modifies trk.Repr
    ensures trk.Valid() && fresh(trk.Repr - old(trk.Repr))
    ensures var taken := TakeSafe(items, safe);
            && trk.View() == Run(trk.cfg, old(trk.View()), Inputs(taken))
            && applied == LastIDs(taken) && latest == LastAt(taken)
  {
    hide Run, Step, TableName, Inputs, LastIDs, LastAt, TakeSafe, Tracker.View;
    applied, latest := map[], None;
    var i := 0;
    NothingApplied(trk.cfg, trk.View(), items, safe);
    while i < |items| && !Beyond(safe, At(items[i]))
      invariant 0 <= i <= |items|
      invariant trk.Valid() && fresh(trk.Repr - old(trk.Repr))
      invariant TakeSafe(items, safe) == items[..i] + TakeSafe(items[i..], safe)
      invariant trk.View() == Run(trk.cfg, old(trk.View()), Inputs(items[..i]))
      invariant applied == LastIDs(items[..i]) && latest == LastAt(items[..i])
    {
      trk.ApplyRow(items[i]);
      applied := applied[TableName(Kind(items[i])) := SrcID(items[i])];
      latest := Some(At(items[i]));
      InputsMore(items, i);
      RunMore(trk.cfg, old(trk.View()), Inputs(items[..i]), Apply(items[i]));
      LastIDsMore(items, i);
      TakeOne(items, safe, i);
      i := i + 1;
    }
    TakeNone(items, safe, i);
  }

  lemma NothingApplied(cfg: Settings, t: State, items: seq<Row>, safe: Option<int>)
    ensures Run(cfg, t, Inputs(items[..0])) == t && LastIDs(items[..0]) == map[] && LastAt(items[..0]) == None
    ensures TakeSafe(items, safe) == items[..0] + TakeSafe(items[0..], safe)
  {
    assert items[0..] == items && items[..0] == [] && Inputs([]) == [];
  }

  lemma TakeOne(items: seq<Row>, safe: Option<int>, i: nat)
    requires i < |items| && !Beyond(safe, At(items[i]))
    requires TakeSafe(items, safe) == items[..i] + TakeSafe(items[i..], safe)
    ensures TakeSafe(items, safe) == items[..i + 1] + TakeSafe(items[i + 1..], safe)
  {
    hide TakeSafe, At, Beyond;
    TakeUnfolds(items[i..], safe);
    assert items[i..][0] == items[i] && items[i..][1..] == items[i + 1..];
    assert items[..i + 1] == items[..i] + [items[i]];
  }

  lemma TakeUnfolds(items: seq<Row>, safe: Option<int>)
    ensures TakeSafe(items, safe)
         == if items == [] || Beyond(safe, At(items[0])) then [] else [items[0]] + TakeSafe(items[1..], safe)
  {
    hide At, Beyond;
  }

  lemma TakeNone(items: seq<Row>, safe: Option<int>, i: nat)
    requires i <= |items| && (i < |items| ==> Beyond(safe, At(items[i])))
    ensures items[..i] + TakeSafe(items[i..], safe) == items[..i]
  {
    hide TakeSafe, At, Beyond;
    TakeUnfolds(items[i..], safe);
    assert i < |items| ==> items[i..][0] == items[i];
  }

  // ---------------------------------------------------------------------------
  // One tick
  // ---------------------------------------------------------------------------

  /** The projector: the tracker's state, the replica, what is stored of watermarks, cursors and rollups, and the
      furthest instant reached. */
  datatype Service = Service(trk: State, tables: Tables, stored: Progress, lastTimelineMS: int)

  /** Hands the closed intervals over and writes them. */
  function HandOver(s: Service, t: State): Service {
    var w := WriteIntervals(Copy(s.tables, s.stored.emission.marks), Handover(t.closed));
    Service(HandedOver(t), w.tables, s.stored.(emission := s.stored.emission.(marks := w.marks)), s.lastTimelineMS)
  }

  function Aggregated(s: Service, upTo: int): Service {
    s.(stored := RollupsAfter(s.tables, s.stored, upTo))
  }

  function WithCursors(s: Service, cursors: map<string, SourceCursor>): Service {
    s.(stored := s.stored.(cursors := cursors))
  }

  /** A tick that applies these rows. */
  ghost function Ticked(cfg: Settings, s: Service, rows: seq<Row>, changes: seq<Change>): Service {
    var s1 := WithCursors(s, Advanced(s.stored.cursors, LastIDs(rows)));
    var s2 := HandOver(s1, Run(cfg, s.trk, TickInputs(rows, changes)));
    if rows == [] then s2
    else
      var at := Millis(At(Last(rows)));
      Aggregated(s2.(lastTimelineMS := at), at)
  }

  function CloseAt(lastTimelineMS: int, now: int): int {
    if lastTimelineMS == 0 || lastTimelineMS > now then now else lastTimelineMS
  }

  /** The open interval closed at an instant and written, and what that adds to the rollups. */
  ghost function FlushedAt(s: Service, at: int): Service {
    Aggregated(HandOver(s, TrackerSpec.FlushOpen(s.trk, at)), s.lastTimelineMS)
  }

  ghost function FinallyFlushed(s: Service, now: int): Service {
    FlushedAt(s, CloseAt(s.lastTimelineMS, now))
  }

  class Projector {
    const trk: Tracker
    const rep: Writer
    const emitter: Emitter
    const batch: nat
    var lastTimelineMS: int

    ghost predicate Valid()
      reads this, trk, trk.Repr, rep.st
    {
      && trk.Valid() && rep.st.Valid() && emitter.rep == rep && batch > 0
      && this !in trk.Repr && rep !in trk.Repr && rep.st !in trk.Repr && emitter !in trk.Repr
    }

    ghost function View(): Service
      requires Valid()
      reads this, trk, trk.Repr, rep, rep.st, emitter
    {
      Service(trk.View(), rep.View().tables, emitter.Stored(), lastTimelineMS)
    }

    /** A projector on an empty replica and an empty state database. */
    constructor (cfg: Settings, batch: nat)
      requires batch > 0
      ensures Valid() && fresh(trk) && fresh(trk.Repr) && fresh(rep) && fresh(rep.st) && fresh(emitter)
      ensures trk.cfg == cfg && this.batch == batch
      ensures View() == Service(INITIAL, EMPTY_TABLES, Progress(Emission([], map[]), map[]), 0)
      ensures rep.st.durableConfig == map[]
    {
      var st := new StateStore(map[], map[], map[]);
      var w := new Writer(st, EMPTY_TABLES);
      var e := new Emitter(w);
      var t := new Tracker(cfg);
      trk, rep, emitter, this.batch, lastTimelineMS := t, w, e, batch, 0;
    }

    /** One bounded read, from the stored cursor on. */
    method ReadTablePage(ts: seq<seq<Row>>, k: nat, ghost pos: seq<nat>) returns (page: seq<Row>, id: int)
      requires ValidTables(ts) && k < TABLES && AtPos(rep.st.durableCursors, ts, pos)
      ensures page == Page(ts[k], pos[k], batch) && id == IDBefore(ts[k], pos[k])
    {
      hide TableName, Page, RowsAfter, CursorOf;
      var cursor := rep.st.Cursor(TableName(k));
      id := cursor.lastID;
      page := RowsAfter(ts[k], id, batch);
      CursorSplits(ts[k], k, pos[k]);
      ReadsPage(ts[k], id, pos[k], batch);
    }

    /** One page of every table, the safe horizon, and the cursors that were read. */
    method Collect(ts: seq<seq<Row>>, ghost pos: seq<nat>)
      returns (items: seq<Row>, safe: Option<int>, read: map<string, int>)
      requires ValidTables(ts) && AtPos(rep.st.durableCursors, ts, pos) && (!trk.cfg.useStepRuns ==> ts[2] == [])
      ensures items == Collected(ts, pos, batch) && safe == SafeUpTo(ts, pos, batch)
      ensures ReadCursors(read, ts, pos, trk.cfg.useStepRuns)
    {
      hide TableName, Page, NoteFull, IDBefore, AtPos, ReadFirst, ValidTable, CursorOf;
      AtPosIsValid(rep.st.durableCursors, ts, pos);
      items, safe, read := [], None, map[];
      NothingRead(ts, pos, trk.cfg.useStepRuns);
      for i := 0 to TABLES
        invariant items == Collected(ts, pos, batch, i) && safe == SafeUpTo(ts, pos, batch, i)
        invariant ReadFirst(read, ts, pos, trk.cfg.useStepRuns, i)
      {
        var k := ReadTable(i);
        if k != 2 || trk.cfg.useStepRuns {
          var page, id := ReadTablePage(ts, k, pos);
          ReadMore(read, ts, pos, trk.cfg.useStepRuns, i, id);
          read := read[TableName(k) := id];
          items := items + page;
          safe := NoteFull(safe, page, batch);
        } else {
          EmptyPage(ts[k], pos[k], batch, safe);
          ReadSkipped(read, ts, pos, i);
        }
      }
      AllRead(read, ts, pos, trk.cfg.useStepRuns);
    }

    /** Stores the cursors of the tables that moved. */
    method AdvanceCursors(read: map<string, int>, applied: map<string, int>)
      requires forall k | 0 <= k < TABLES :: Moves(applied, read, TableName(k))
      modifies rep.st`durableCursors
      ensures rep.st.durableCursors == Advanced(old(rep.st.durableCursors), applied)
    {
      hide TableName;
      for k := 0 to TABLES
        invariant rep.st.durableCursors == Advanced(old(rep.st.durableCursors), applied, k)
      {
        var table := TableName(k);
        if table in applied && applied[table] > if table in read then read[table] else 0 {
          rep.st.SetCursor(table, applied[table], 0);
        }
      }
    }

    /** The configuration values that differ from the snapshot become changes at one instant, and the snapshot
        follows. A key seen for the first time is a baseline, not a change. */
    method DrainConfig(config: map<string, string>, at: int) returns (ghost changes: seq<Change>)
      requires trk.Valid() && rep.st !in trk.Repr
      modifies trk.Repr, rep.st`durableConfig
      ensures trk.Valid() && fresh(trk.Repr - old(trk.Repr))
      ensures IsDiff(old(rep.st.durableConfig), config, changes)
      ensures trk.View() == Run(trk.cfg, old(trk.View()), ConfigInputs(changes, at))
      ensures rep.st.durableConfig == old(rep.st.durableConfig) + config
    {
      hide Run, Step, Tracker.View, DiffOn;
      var previous := rep.st.ConfigSnapshot();
      changes := [];
      NoChanges(trk.cfg, trk.View(), at);
      NothingDiffers(previous, config);
      var changed, todo := false, config.Keys;
      while todo != {}
        invariant todo <= config.Keys
        invariant trk.Valid() && fresh(trk.Repr - old(trk.Repr)) && rep.st !in trk.Repr
        invariant rep.st.durableConfig == previous
        invariant DiffOn(previous, config, changes, config.Keys - todo)
        invariant !changed ==> forall k | k in config.Keys - todo :: k in previous && previous[k] == config[k]
        invariant trk.View() == Run(trk.cfg, old(trk.View()), ConfigInputs(changes, at))
        decreases todo
      {
        var k :| k in todo;
        OneKeyMore(previous, config, changes, config.Keys - todo, k);
        assert config.Keys - (todo - {k}) == (config.Keys - todo) + {k} && changes + [] == changes;
        todo := todo - {k};
        if k !in previous || previous[k] != config[k] {
          if k in previous {
            trk.ApplyConfigChange(k, previous[k], config[k], at);
            RunMore(trk.cfg, old(trk.View()), ConfigInputs(changes, at), Config(k, previous[k], config[k], at));
            ConfigInputsMore(changes, Change(k, previous[k], config[k]), at);
            changes := changes + [Change(k, previous[k], config[k])];
          }
          changed := true;
        }
      }
      AllKeys(previous, config, changes);
      if changed {
        rep.st.SetConfigSnapshot(config);
      } else {
        assert previous + config == previous;
      }
    }

    method FlushIntervals()
      requires Valid()
      modifies trk`closed, rep, rep.st`marks, rep.st`durableMarks
      ensures Valid() && View() == HandOver(old(View()), old(trk.View()))
    {
      hide Handover, WriteIntervals, Tracker.View;
      var pending := trk.PendingIntervals();
      WriteAll(rep, pending);
    }

    /** The first half of a tick: read, merge, apply. */
    method ApplyPages(ts: seq<seq<Row>>, config: map<string, string>, ghost pos: seq<nat>)
      returns (applied: map<string, int>, latest: Option<int>, read: map<string, int>, ghost changes: seq<Change>)
      requires Valid() && ValidTables(ts) && (!trk.cfg.useStepRuns ==> ts[2] == [])
      requires AtPos(rep.st.durableCursors, ts, pos)
      modifies trk.Repr, rep.st`durableConfig
      ensures Valid() && fresh(trk.Repr - old(trk.Repr))
      ensures ConfigDrained(old(rep.st.durableConfig), config, rep.st.durableConfig, Applied(ts, pos, batch), changes)
      ensures var rows := Applied(ts, pos, batch);
              && View() == old(View()).(trk := Run(trk.cfg, old(trk.View()), TickInputs(rows, changes)))
              && applied == LastIDs(rows) && latest == LastAt(rows)
      ensures forall k | 0 <= k < TABLES :: Moves(applied, read, TableName(k))
    {
      hide Collected, SafeUpTo, LastIDs, TableName, Run, TakeSafe, Tracker.View, Moves, ReadCursors, Inputs,
        ConfigInputs, SortBy, IsDiff;
      var items;
      var safe;
      items, safe, read := Collect(ts, pos);
      applied, latest := ApplyItems(trk, SortBy(RowLe, items), safe);
      ghost var rows := Applied(ts, pos, batch);
      changes := [];
      if latest.Some? {
        changes := DrainConfig(config, latest.value);
      } else {
        NoInputs(trk.cfg, trk.View());
      }
      RunAppend(trk.cfg, old(trk.View()), Inputs(rows),
                if rows == [] then [] else ConfigInputs(changes, At(Last(rows))));
      forall k | 0 <= k < TABLES ensures Moves(applied, read, TableName(k)) {
        ReadsForward(read, ts, pos, batch, trk.cfg.useStepRuns, k);
      }
    }

    /** Cursors first, then the closed intervals. */
    method Store(read: map<string, int>, applied: map<string, int>)
      requires Valid() && forall k | 0 <= k < TABLES :: Moves(applied, read, TableName(k))
      modifies trk`closed, rep, rep.st`marks, rep.st`durableMarks, rep.st`durableCursors
      ensures Valid()
      ensures View() == HandOver(WithCursors(old(View()), Advanced(old(rep.st.durableCursors), applied)),
                                 old(trk.View()))
    {
      hide Advanced, Moves, HandOver;
      AdvanceCursors(read, applied);
      FlushIntervals();
    }

    method Aggregate()
      requires Valid()
      modifies emitter, rep.st`marks, rep.st`durableMarks, rep.st`durableCursors
      ensures Valid() && View() == Aggregated(old(View()), lastTimelineMS)
    {
      hide RollupsAfter;
      emitter.EmitDerived(lastTimelineMS);
    }

    /** One pass over the source. */
    method Tick(ts: seq<seq<Row>>, config: map<string, string>, ghost pos: seq<nat>)
      returns (ghost changes: seq<Change>)
      requires Valid() && ValidTables(ts) && (!trk.cfg.useStepRuns ==> ts[2] == [])
      requires AtPos(rep.st.durableCursors, ts, pos)
      modifies this, trk.Repr, rep, rep.st, emitter
      ensures Valid() && fresh(trk.Repr - old(trk.Repr))
      ensures ConfigDrained(old(rep.st.durableConfig), config, rep.st.durableConfig, Applied(ts, pos, batch), changes)
      ensures View() == Ticked(trk.cfg, old(View()), Applied(ts, pos, batch), changes)
    {
      hide Applied, LastIDs, TableName, Run, Advanced, WriteIntervals, Handover, RollupsAfter, AtPos, Moves,
        Tracker.View, ConfigDrained;
      var applied, latest, read;
      applied, latest, read, changes := ApplyPages(ts, config, pos);
      Store(read, applied);
      if latest.Some? {
        lastTimelineMS := Millis(latest.value);
        Aggregate();
      }
    }

    /** Closes the open interval on the machine's timeline and writes it. The clock decides only when nothing was
        applied yet, or when the timeline is ahead of it. */
    method FinalFlush(now: int)
      requires Valid()
      modifies this, trk.Repr, rep, rep.st, emitter
      ensures Valid() && fresh(trk.Repr - old(trk.Repr))
      ensures View() == FinallyFlushed(old(View()), now)
      ensures old(lastTimelineMS) != 0 && old(lastTimelineMS) <= now ==>
                View() == FlushedAt(old(View()), old(lastTimelineMS))
      ensures old(lastTimelineMS) == 0 || now < old(lastTimelineMS) ==> View() == FlushedAt(old(View()), now)
    {
      hide WriteIntervals, Handover, RollupsAfter, TrackerSpec.FlushOpen, Tracker.View;
      trk.FlushOpen(CloseAt(lastTimelineMS, now));
      FlushIntervals();
      Aggregate();
    }
  }

  method WriteAll(rep: Writer, pending: seq<IntervalRecord>)
    requires rep.st.Valid()
    modifies rep, rep.st`marks, rep.st`durableMarks
    ensures rep.st.Valid() && rep.View() == WriteIntervals(old(rep.View()), Views(pending))
    ensures rep.st.durableCursors == old(rep.st.durableCursors)
  {
    hide WriteInterval, Views, Writer.View;
    ghost var ivs := Views(pending);
    ViewsAt(pending);
    for i := 0 to |pending|
      invariant rep.st.Valid() && Views(pending) == ivs
      invariant rep.View() == WriteIntervals(old(rep.View()), ivs[..i])
      invariant rep.st.durableCursors == old(rep.st.durableCursors)
    {
      ViewsAt(pending);
      assert Front(ivs[..i + 1]) == ivs[..i];
      rep.FlushInterval(pending[i]);
    }
    assert ivs[..|pending|] == ivs;
  }

  const EMPTY_TABLES := Tables([], [], [], [], [], [], [])

  lemma AtPosIsValid(cursors: map<string, SourceCursor>, ts: seq<seq<Row>>, pos: seq<nat>)
    requires AtPos(cursors, ts, pos)
    ensures ValidPos(ts, pos)
  {
  }

  /** The cursors after the first n reads. */
  ghost predicate ReadFirst(read: map<string, int>, ts: seq<seq<Row>>, pos: seq<nat>, useStepRuns: bool, n: nat)
    requires ValidPos(ts, pos)
  {
    forall k | 0 <= k < TABLES && ReadIndex(k) < n && (k != 2 || useStepRuns) ::
      TableName(k) in read && read[TableName(k)] == IDBefore(ts[k], pos[k])
  }

  lemma NothingRead(ts: seq<seq<Row>>, pos: seq<nat>, useStepRuns: bool)
    requires ValidPos(ts, pos)
    ensures ReadFirst(map[], ts, pos, useStepRuns, 0)
  {
  }

  lemma ReadMore(read: map<string, int>, ts: seq<seq<Row>>, pos: seq<nat>, useStepRuns: bool, i: nat, id: int)
    requires ValidPos(ts, pos) && i < TABLES && id == IDBefore(ts[ReadTable(i)], pos[ReadTable(i)])
    requires ReadFirst(read, ts, pos, useStepRuns, i)
    ensures ReadFirst(read[TableName(ReadTable(i)) := id], ts, pos, useStepRuns, i + 1)
  {
    hide TableName, IDBefore;
    forall k | 0 <= k < TABLES && TableName(k) == TableName(ReadTable(i)) ensures k == ReadTable(i) {
      TableNamesDiffer(k, ReadTable(i));
    }
  }

  lemma ReadSkipped(read: map<string, int>, ts: seq<seq<Row>>, pos: seq<nat>, i: nat)
    requires ValidPos(ts, pos) && i < TABLES && ReadTable(i) == 2 && ReadFirst(read, ts, pos, false, i)
    ensures ReadFirst(read, ts, pos, false, i + 1)
  {
    hide TableName, IDBefore;
  }

  lemma AllRead(read: map<string, int>, ts: seq<seq<Row>>, pos: seq<nat>, useStepRuns: bool)
    requires ValidPos(ts, pos) && ReadFirst(read, ts, pos, useStepRuns, TABLES)
    ensures ReadCursors(read, ts, pos, useStepRuns)
  {
    hide TableName, IDBefore;
    assert forall k | 0 <= k < TABLES :: ReadIndex(k) < TABLES;
  }

  lemma EmptyPage(t: seq<Row>, p: nat, batch: nat, safe: Option<int>)
    requires t == [] && p == 0
    ensures Page(t, p, batch) == [] && NoteFull(safe, Page(t, p, batch), batch) == safe
  {
  }

  lemma NoChanges(cfg: Settings, t: State, at: int)
    ensures Run(cfg, t, ConfigInputs([], at)) == t
  {
    assert ConfigInputs([], at) == [];
  }
}
