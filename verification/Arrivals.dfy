/** From the source to the replica (cmd/projector/tracker.go, cmd/projector/writer.go): which applied rows arrive. */
module Arrivals {
  import opened Source
  import opened Intervals
  import opened TrackerSpec
  import opened Frames
  import opened Buffers
  import opened Timeline
  import opened Replica
  import opened Writers
  import opened EmitOrder
  import Calendar
  import ChildOrder
  import SynthKeys

  function StoredToggles(t: Tables): seq<Toggle> {
    seq(|t.toggles|, k requires 0 <= k < |t.toggles| => t.toggles[k].row.row)
  }

  lemma TogglesOfOne(c: Copy, iv: Interval)
    ensures WriteInterval(c, iv).tables.toggles == c.tables.toggles + Mapped(StoreToggle, iv.toggles)
  {
    hide Mapped, UpsertCycle, InsertFaults, HighTS, SetMark, SetMarks, Guarded;
  }

  /** The sensor_toggles table holds the toggles of the written intervals. */
  lemma {:induction false} TogglesWritten(c: Copy, ivs: seq<Interval>)
    ensures StoredToggles(WriteIntervals(c, ivs).tables) == StoredToggles(c.tables) + Flat(ToggleRows, ivs)
  {
    hide WriteInterval, Calendar.EventTS, Calendar.DateUTC;
    if ivs == [] {
      assert Flat(ToggleRows, ivs) == [];
    } else {
      var d, iv := WriteIntervals(c, Front(ivs)), Last(ivs);
      TogglesWritten(c, Front(ivs));
      TogglesOfOne(d, iv);
      assert StoredToggles(WriteInterval(d, iv).tables) == StoredToggles(d.tables) + ToggleRows(iv);
    }
  }

  lemma {:induction false} FlatMember<T>(f: Interval -> seq<T>, ivs: seq<Interval>, s: T)
    ensures s in Flat(f, ivs) <==> exists iv :: iv in ivs && s in f(iv)
  {
    if ivs != [] {
      FlatMember(f, Front(ivs), s);
      assert ivs == Front(ivs) + [Last(ivs)];
      assert Last(ivs) in ivs;
    }
  }

  lemma {:induction false} EmittedOrDropped(ivs: seq<Interval>, iv: Interval)
    requires iv in ivs
    ensures iv in Emitted(ivs) || iv.endedMS <= iv.startedMS
  {
    assert ivs == Front(ivs) + [Last(ivs)];
    if iv != Last(ivs) {
      EmittedOrDropped(Front(ivs), iv);
    }
  }

  /** All toggles of the closed intervals are the applied ones. */
  lemma FinishedToggles(cfg: Settings, inputs: seq<Input>, closeAt: int)
    ensures Flat(ToggleRows, WholeRun(cfg, inputs, closeAt).finished) == FromAll(TogglesIn, inputs)
  {
    hide Run, CloseInterval, SameTally, ToggleRows;
    var t := Run(cfg, INITIAL, inputs);
    RowsConserved(cfg, inputs);
    FlushIsClose(cfg, inputs, closeAt);
    CloseFrame(t, FlushAt(t, closeAt), FlushResult(t));
    SameToggles();
    CloseKeepsAll(ToggleRows, t, FlushAt(t, closeAt), FlushResult(t));
  }

  lemma SameToggles()
    ensures forall a, b | SameRows(a, b) :: ToggleRows(a) == ToggleRows(b)
  {
  }

  /** A dropped interval that opened at the very millisecond its toggle carries. */
  ghost predicate DroppedWith(ivs: seq<Interval>, iv: Interval, s: Toggle) {
    iv in ivs && iv.endedMS <= iv.startedMS
    && exists k :: 0 <= k < |iv.toggles| && iv.toggles[k].row == s && iv.toggles[k].eventAtMS == iv.startedMS
  }

  /** On the base path the sensor_toggles table holds applied toggles only, and every applied toggle but those that
      carry the very millisecond at which their interval opened and was dropped. */
  lemma TogglesArrive(cfg: Settings, start: int, inputs: seq<Input>, closeAt: int, s: Toggle)
    requires BasePath(start, inputs) && Now(start, inputs) <= closeAt
    ensures var f := WholeRun(cfg, inputs, closeAt);
            var stored := StoredToggles(WriteIntervals(EMPTY, f.closed).tables);
            && (s in stored ==> s in FromAll(TogglesIn, inputs))
            && (s in FromAll(TogglesIn, inputs) ==> s in stored || exists iv :: DroppedWith(f.finished, iv, s))
  {
    hide WholeRun, BasePath, Now, Emitted, WriteIntervals, TogglesIn, Chain, EmittedInOrder;
    var f := WholeRun(cfg, inputs, closeAt);
    RunTimeline(cfg, start, inputs, closeAt);
    FinishedToggles(cfg, inputs, closeAt);
    TogglesWritten(EMPTY, f.closed);
    FlatMember(ToggleRows, f.finished, s);
    FlatMember(ToggleRows, f.closed, s);
    SynthKeys.EmittedAreFinished(f.finished);
    if s in FromAll(TogglesIn, inputs) {
      var iv :| iv in f.finished && s in ToggleRows(iv);
      EmittedOrDropped(f.finished, iv);
      if iv !in f.closed {
        var k :| 0 <= k < |iv.toggles| && ToggleRows(iv)[k] == s;
        ChildOrder.LostRowsAreInstant(cfg, start, inputs, closeAt, iv, ChildOrder.Toggles, k);
        assert DroppedWith(f.finished, iv, s);
      }
    }
  }
}
