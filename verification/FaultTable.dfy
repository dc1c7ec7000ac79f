/** Fault keys (cmd/projector/tracker.go), and with them the fault_events table (cmd/projector/writer.go): one row for
    every fault of the written intervals. */
module FaultTable {
  import opened Source
  import opened Text
  import opened Intervals
  import opened TrackerSpec
  import opened Frames
  import opened Buffers
  import opened Timeline
  import opened Replica
  import opened Writers
  import opened EmitOrder
  import opened RunRollups
  import opened Arrivals
  import Calendar
  import ChildOrder
  import SynthKeys

  /** The source row a fault was raised from. */
  datatype Origin = Origin(isStepRun: bool, faultType: string, id: int)

  function OriginIn(i: Input): seq<Origin> {
    if i.Apply? && i.row.FaultRow? then [Origin(false, i.row.fault.faultType, i.row.fault.id)]
    else if i.Apply? && i.row.StepRunRow? then [Origin(true, i.row.stepRun.faultType, i.row.stepRun.id)]
    else []
  }

  /** The id of a row as it stands in its key, marked when it is a step run's. */
  function Tag(o: Origin): string {
    (if o.isStepRun then "sr" else "") + Signed(o.id)
  }

  /** A key up to the order key: the fault type and the row's id. */
  function Head(o: Origin): string {
    o.faultType + ("|" + Tag(o))
  }

  /** A key as it is spelled. */
  function Spelled(o: Origin, orderKey: string): string {
    Head(o) + ("|" + orderKey)
  }

  lemma TagHasNoBar(o: Origin)
    ensures '|' !in Tag(o)
  {
    SignedHasDigits(o.id);
  }

  lemma TagsDiffer(o: Origin, p: Origin)
    requires Tag(o) == Tag(p)
    ensures o.isStepRun == p.isStepRun && o.id == p.id
  {
    var s := Tag(o);
    SignedHasDigits(o.id);
    SignedHasDigits(p.id);
    SignedNotEmpty(o.id);
    SignedNotEmpty(p.id);
    assert o.isStepRun <==> s[0] == 's';
    assert p.isStepRun <==> s[0] == 's';
    assert Signed(o.id) == s[if o.isStepRun then 2 else 0..] == Signed(p.id);
    SignedInjective(o.id, p.id);
  }

  lemma SignedNotEmpty(n: int)
    ensures Signed(n) != "" && Signed(n)[0] in Signed(n)
  {
  }

  // ---------------------------------------------------------------------------
  // When two keys may be equal
  // ---------------------------------------------------------------------------

  /** The fault type t goes on behind the type of o as a key with o's id does. */
  predicate GoesOn(t: string, o: Origin) {
    Head(o) <= t && (|Head(o)| < |t| ==> t[|Head(o)|] == '|')
  }

  /** The fault type t goes on behind that of o as some key would. */
  ghost predicate Extends(t: string, o: Origin) {
    exists n: int :: GoesOn(t, o.(id := n))
  }

  /** Rows of one source and fault type, or of fault types neither of which extends the other. */
  ghost predicate Separable(o: Origin, p: Origin) {
    || (o.isStepRun == p.isStepRun && o.faultType == p.faultType)
    || (!Extends(p.faultType, o) && !Extends(o.faultType, p))
  }

  lemma NoBarSeparates(o: Origin, p: Origin)
    requires '|' !in o.faultType && '|' !in p.faultType
    ensures Separable(o, p)
  {
    hide GoesOn;
    forall n: int ensures !GoesOn(p.faultType, o.(id := n)) && !GoesOn(o.faultType, p.(id := n)) {
      GoesOnWithBar(p.faultType, o.(id := n));
      GoesOnWithBar(o.faultType, p.(id := n));
    }
  }

  lemma GoesOnWithBar(t: string, o: Origin)
    ensures GoesOn(t, o) ==> '|' in t
  {
    assert GoesOn(t, o) ==> t[|o.faultType|] == '|';
  }

  /** Where the shorter type ends, the longer one goes on with the key. */
  lemma LongerGoesOn(o: Origin, k: string, p: Origin, m: string)
    requires Spelled(o, k) == Spelled(p, m) && |o.faultType| < |p.faultType|
    ensures Extends(p.faultType, o)
  {
    hide Tag;
    var key, s, n := Head(o), Spelled(o, k), |p.faultType|;
    TagHasNoBar(o);
    NoBarAfterType(o);
    StartsWithHead(o, k);
    StartsWithType(p, m);
    assert s[n] == '|';
    assert forall i | 0 <= i < |key| :: s[i] == key[i];
    assert s[..|key|] == key && (|key| < n ==> s[|key|] == '|');
    assert GoesOn(p.faultType, o.(id := o.id));
  }

  lemma NoBarAfterType(o: Origin)
    ensures forall i | |o.faultType| < i < |Head(o)| :: Head(o)[i] != '|'
  {
    hide Tag;
    TagHasNoBar(o);
    var t := Tag(o);
    assert forall i | 0 <= i < |t| :: t[i] in t;
    assert forall i | |o.faultType| < i < |Head(o)| :: Head(o)[i] == t[i - |o.faultType| - 1];
  }

  lemma StartsWithHead(o: Origin, k: string)
    ensures Head(o) <= Spelled(o, k) && |Head(o)| < |Spelled(o, k)| && Spelled(o, k)[|Head(o)|] == '|'
  {
  }

  lemma StartsWithType(o: Origin, k: string)
    ensures o.faultType <= Spelled(o, k) && |o.faultType| < |Head(o)| < |Spelled(o, k)|
    ensures Spelled(o, k)[|o.faultType|] == '|'
  {
    hide Tag;
  }

  /** A key tells the row and the order it was made from, whatever the order keys are, as long as the fault types are
      separable. */
  lemma SpellingInjective(o: Origin, k: string, p: Origin, m: string)
    requires Separable(o, p) && Spelled(o, k) == Spelled(p, m)
    ensures o == p && k == m
  {
    hide Tag, Extends, Spelled;
    if |o.faultType| < |p.faultType| {
      LongerGoesOn(o, k, p, m);
    } else if |p.faultType| < |o.faultType| {
      LongerGoesOn(p, m, o, k);
    } else {
      SameTypes(o, k, p, m);
    }
  }

  lemma SameTypes(o: Origin, k: string, p: Origin, m: string)
    requires |o.faultType| == |p.faultType| && Spelled(o, k) == Spelled(p, m)
    ensures o == p && k == m
  {
    hide Tag;
    var s, n := Spelled(o, k), |o.faultType|;
    StartsWithType(o, k);
    StartsWithType(p, m);
    assert o.faultType == s[..n] == p.faultType;
    BehindType(o, k);
    BehindType(p, m);
    TagHasNoBar(o);
    TagHasNoBar(p);
    SplitAt('|', Tag(o), Tag(p), k, m);
    TagsDiffer(o, p);
  }

  lemma BehindType(o: Origin, k: string)
    ensures |o.faultType| + 1 <= |Spelled(o, k)| && Spelled(o, k)[|o.faultType| + 1..] == Tag(o) + ("|" + k)
  {
    hide Tag;
  }

  /** Some rows of these sources and fault types have one key. */
  ghost predicate MayCollide(o: Origin, p: Origin) {
    exists a: int, k: string, b: int, m: string :: Spelled(o.(id := a), k) == Spelled(p.(id := b), m)
  }

  lemma ExtendedCollides(o: Origin, p: Origin)
    requires Extends(p.faultType, o)
    ensures MayCollide(o, p)
  {
    hide Tag;
    var n: int :| GoesOn(p.faultType, o.(id := n));
    var q, r, t := o.(id := n), p.(id := 0), p.faultType;
    var rest := Tag(r) + ("|" + "");
    if Head(q) == t {
      assert Spelled(q, rest) == t + ("|" + rest) == Spelled(r, "");
    } else {
      var tail := t[|Head(q)| + 1..];
      assert t == Head(q) + ("|" + tail);
      assert Spelled(q, tail + ("|" + rest)) == t + ("|" + rest) == Spelled(r, "");
    }
  }

  /** Rows of different sources or fault types may have one key exactly when one type extends the other. */
  lemma KeysCollideExactly(o: Origin, p: Origin)
    requires o.isStepRun != p.isStepRun || o.faultType != p.faultType
    ensures MayCollide(o, p) <==> Extends(p.faultType, o) || Extends(o.faultType, p)
  {
    hide Spelled, GoesOn;
    if Extends(p.faultType, o) {
      ExtendedCollides(o, p);
    }
    if Extends(o.faultType, p) {
      ExtendedCollides(p, o);
      var a: int, k, b: int, m :| Spelled(p.(id := a), k) == Spelled(o.(id := b), m);
      assert Spelled(o.(id := b), m) == Spelled(p.(id := a), k);
    }
    if MayCollide(o, p) && !Extends(p.faultType, o) && !Extends(o.faultType, p) {
      var a: int, k, b: int, m :| Spelled(o.(id := a), k) == Spelled(p.(id := b), m);
      SameExtends(o, a, p, b);
      SpellingInjective(o.(id := a), k, p.(id := b), m);
    }
  }

  lemma SameExtends(o: Origin, a: int, p: Origin, b: int)
    requires !Extends(p.faultType, o) && !Extends(o.faultType, p)
    ensures Separable(o.(id := a), p.(id := b))
  {
    forall n: int ensures !GoesOn(p.faultType, o.(id := a).(id := n)) && !GoesOn(o.faultType, p.(id := b).(id := n)) {
      assert o.(id := a).(id := n) == o.(id := n) && p.(id := b).(id := n) == p.(id := n);
    }
  }

  lemma KeysAreSpelled(f: Fault, sr: StepRun, k: string)
    ensures LedgerFaultKey(f, k) == Spelled(Origin(false, f.faultType, f.id), k)
    ensures StepRunFaultKey(sr, k) == Spelled(Origin(true, sr.faultType, sr.id), k)
  {
    hide Signed;
    var a, b := Signed(f.id), Signed(sr.id);
    assert f.faultType + "|" + a + "|" + k == f.faultType + ("|" + ("" + a)) + ("|" + k);
    assert sr.faultType + "|sr" + b + "|" + k == sr.faultType + ("|" + ("sr" + b)) + ("|" + k);
  }

  /** Two faults of the ledger whose types have no bar have one key only if they are one row in one order. */
  lemma FaultKeysDiffer(f: Fault, k: string, g: Fault, m: string)
    requires '|' !in f.faultType && '|' !in g.faultType
    ensures LedgerFaultKey(f, k) == LedgerFaultKey(g, m) <==> f.faultType == g.faultType && f.id == g.id && k == m
  {
    hide Spelled, LedgerFaultKey, StepRunFaultKey, Separable;
    var sr := StepRun(0, 0, 0, "", 0, "", "", "", "");
    var o, p := Origin(false, f.faultType, f.id), Origin(false, g.faultType, g.id);
    KeysAreSpelled(f, sr, k);
    KeysAreSpelled(g, sr, m);
    if LedgerFaultKey(f, k) == LedgerFaultKey(g, m) {
      NoBarSeparates(o, p);
      SpellingInjective(o, k, p, m);
    }
  }

  /** A key of the ledger is never one of a step run, as long as neither type has a bar. */
  lemma SourcesHaveOwnKeys(f: Fault, k: string, sr: StepRun, m: string)
    requires '|' !in f.faultType && '|' !in sr.faultType
    ensures LedgerFaultKey(f, k) != StepRunFaultKey(sr, m)
  {
    hide Spelled, LedgerFaultKey, StepRunFaultKey, Separable;
    var o, p := Origin(false, f.faultType, f.id), Origin(true, sr.faultType, sr.id);
    KeysAreSpelled(f, sr, k);
    KeysAreSpelled(f, sr, m);
    if LedgerFaultKey(f, k) == StepRunFaultKey(sr, m) {
      NoBarSeparates(o, p);
      SpellingInjective(o, k, p, m);
    }
  }

  /** With a bar in a fault type, a key of the ledger may be one of a step run. */
  lemma BarsCollide()
    ensures var f := Fault(2, 0, "", 0, "A|sr1", "", "");
            var sr := StepRun(1, 0, 0, "", 0, "", "A", "", "");
            LedgerFaultKey(f, "K") == StepRunFaultKey(sr, "2|K")
  {
    assert Signed(1) == "1" && Signed(2) == "2";
    assert "A|sr1" + "|" + "2" + "|" + "K" == "A|sr1|2|K" == "A" + "|sr" + "1" + "|" + "2|K";
  }

  // ---------------------------------------------------------------------------
  // The keys of a run
  // ---------------------------------------------------------------------------

  function FaultsOf(iv: Interval): seq<OutFault> {
    iv.faults
  }

  /** What an input raises in the open interval. */
  ghost predicate RaisedBy(f: OutFault, i: Input, orderKey: string) {
    && OriginIn(i) != [] && f.orderKey == orderKey
    && f.faultType == OriginIn(i)[0].faultType && f.faultKey == Spelled(OriginIn(i)[0], orderKey)
  }

  /** Every fault was raised by an input, and different faults by different inputs. */
  ghost predicate Traced(faults: seq<OutFault>, inputs: seq<Input>) {
    exists from: seq<nat> :: Traces(faults, inputs, from)
  }

  ghost predicate Traces(faults: seq<OutFault>, inputs: seq<Input>, from: seq<nat>) {
    && |from| == |faults|
    && (forall k | 0 <= k < |from| :: from[k] < |inputs| && RaisedBy(faults[k], inputs[from[k]], faults[k].orderKey))
    && forall j, k | 0 <= j < k < |from| :: from[j] < from[k]
  }

  lemma RecordRaises(cfg: Settings, t: State, i: Input)
    requires t.current.Some?
    ensures var a, b := t.current.value.faults, Record(cfg, t, i).current.value.faults;
            b == a || (|b| == |a| + 1 && b[..|a|] == a && RaisedBy(Last(b), i, Last(b).orderKey))
  {
    hide RecordEvent, ApplyDoorSignals, RecordLedgerFault, LedgerFaultKey, StepRunFaultKey, Spelled, RecordFault,
      RecordStepRun;
    if i.Apply? {
      match i.row {
        case EventRow(e) => EventBuffers(cfg, t, e, AtMS(i));
        case FaultRow(f) => FaultRaises(cfg, t, i, f);
        case StepRunRow(sr) => StepRunRaises(cfg, t, i, sr);
        case _ =>
      }
    }
  }

  lemma FaultRaises(cfg: Settings, t: State, i: Input, f: Fault)
    requires t.current.Some? && i == Apply(FaultRow(f))
    ensures var a, b := t.current.value.faults, RecordFault(cfg, t, f, AtMS(i)).current.value.faults;
            |b| == |a| + 1 && b[..|a|] == a && RaisedBy(Last(b), i, Last(b).orderKey)
  {
    hide RecordLedgerFault, LedgerFaultKey, StepRunFaultKey, Spelled;
    KeysAreSpelled(f, StepRun(0, 0, 0, "", 0, "", "", "", ""), t.current.value.orderKey);
  }

  lemma StepRunRaises(cfg: Settings, t: State, i: Input, sr: StepRun)
    requires t.current.Some? && i == Apply(StepRunRow(sr))
    ensures var a, b := t.current.value.faults, RecordStepRun(cfg, t, sr).current.value.faults;
            b == a || (|b| == |a| + 1 && b[..|a|] == a && RaisedBy(Last(b), i, Last(b).orderKey))
  {
    hide LedgerFaultKey, StepRunFaultKey, Spelled, StepRunDwell, StepRunEmits, StepRunFaultCounts;
    KeysAreSpelled(Fault(0, 0, "", 0, "", "", ""), sr, t.current.value.orderKey);
  }

  lemma TraceMore(faults: seq<OutFault>, more: seq<OutFault>, inputs: seq<Input>, i: Input)
    requires Traced(faults, inputs)
    requires more == [] || (|more| == 1 && RaisedBy(more[0], i, more[0].orderKey))
    ensures Traced(faults + more, inputs + [i])
  {
    hide RaisedBy;
    var from :| Traces(faults, inputs, from);
    assert forall k | 0 <= k < |inputs| :: (inputs + [i])[k] == inputs[k];
    var next := from + if more == [] then [] else [|inputs|];
    assert Traces(faults + more, inputs + [i], next);
  }

  lemma StepTraced(cfg: Settings, t: State, i: Input, inputs: seq<Input>)
    requires Traced(All(FaultsOf, t), inputs)
    ensures Traced(All(FaultsOf, Step(cfg, t, i)), inputs + [i])
  {
    hide Step, All, Opened, Record, RaisedBy, Traced, SameRows, NewInterval;
    var t1 := Opened(cfg, t, i);
    RecordRaises(cfg, t1, i);
    var a, b := t1.current.value.faults, Record(cfg, t1, i).current.value.faults;
    var more := b[|a|..];
    assert b == a + more;
    FaultsAreRows();
    StepAdds(FaultsOf, more, cfg, t, i);
    TraceMore(All(FaultsOf, t), more, inputs, i);
  }

  lemma FaultsAreRows()
    ensures forall a, b | SameRows(a, b) :: FaultsOf(a) == FaultsOf(b)
    ensures forall k, p, at, r :: FaultsOf(NewInterval(k, p, at, r)) == []
  {
  }

  lemma {:induction false} RunTraced(cfg: Settings, inputs: seq<Input>)
    ensures Traced(All(FaultsOf, Run(cfg, INITIAL, inputs)), inputs)
  {
    hide Step, Traced, All;
    if inputs != [] {
      RunTraced(cfg, Front(inputs));
      StepTraced(cfg, Run(cfg, INITIAL, Front(inputs)), Last(inputs), Front(inputs));
      assert Front(inputs) + [Last(inputs)] == inputs;
    } else {
      NothingTraced();
    }
  }

  lemma NothingTraced()
    ensures Traced(All(FaultsOf, INITIAL), [])
  {
    assert Traces(All(FaultsOf, INITIAL), [], []);
  }

  /** Fault rows have distinct ids, step runs have distinct ids, and their fault types are separable. */
  ghost predicate DistinctRows(inputs: seq<Input>) {
    forall j, k | 0 <= j < k < |inputs| && OriginIn(inputs[j]) != [] && OriginIn(inputs[k]) != [] ::
      var o, p := OriginIn(inputs[j])[0], OriginIn(inputs[k])[0];
      Separable(o, p) && (o.isStepRun != p.isStepRun || o.id != p.id)
  }

  ghost predicate KeysApart(faults: seq<OutFault>) {
    forall j, k | 0 <= j < k < |faults| :: faults[j].faultKey != faults[k].faultKey
  }

  lemma TracedApart(faults: seq<OutFault>, inputs: seq<Input>)
    requires Traced(faults, inputs) && DistinctRows(inputs)
    ensures KeysApart(faults)
  {
    hide Spelled, OriginIn, Separable;
    var from :| Traces(faults, inputs, from);
    forall j, k | 0 <= j < k < |faults| ensures faults[j].faultKey != faults[k].faultKey {
      var o, p := OriginIn(inputs[from[j]])[0], OriginIn(inputs[from[k]])[0];
      if faults[j].faultKey == faults[k].faultKey {
        SpellingInjective(o, faults[j].orderKey, p, faults[k].orderKey);
      }
    }
  }

  // ---------------------------------------------------------------------------
  // The table
  // ---------------------------------------------------------------------------

  lemma {:induction false} EmittedApartKeys(ivs: seq<Interval>)
    requires KeysApart(Flat(FaultsOf, ivs))
    ensures KeysApart(Flat(FaultsOf, Emitted(ivs)))
    ensures forall f | f in Flat(FaultsOf, Emitted(ivs)) :: f in Flat(FaultsOf, ivs)
  {
    if ivs != [] {
      var a, b := Flat(FaultsOf, Front(ivs)), FaultsOf(Last(ivs));
      assert Flat(FaultsOf, ivs) == a + b;
      assert KeysApart(a) by {
        assert forall k | 0 <= k < |a| :: a[k] == (a + b)[k];
      }
      EmittedApartKeys(Front(ivs));
      var some := Flat(FaultsOf, Emitted(Front(ivs)));
      if Last(ivs).startedMS < Last(ivs).endedMS {
        assert Front(Emitted(ivs)) == Emitted(Front(ivs));
        assert Flat(FaultsOf, Emitted(ivs)) == some + b;
        JoinApart(some, a, b);
      } else {
        assert Emitted(ivs) == Emitted(Front(ivs));
      }
    }
  }

  lemma JoinApart(some: seq<OutFault>, a: seq<OutFault>, b: seq<OutFault>)
    requires KeysApart(some) && KeysApart(a + b) && forall f | f in some :: f in a
    ensures KeysApart(some + b)
  {
    forall j, k | 0 <= j < |some| && 0 <= k < |b| ensures some[j].faultKey != b[k].faultKey {
      assert some[j] in a;
      var m :| 0 <= m < |a| && a[m] == some[j];
      assert (a + b)[m] == a[m] && (a + b)[|a| + k] == b[k];
    }
    assert forall k | 0 <= k < |b| :: b[k] == (a + b)[|a| + k];
  }

  lemma {:induction false} InsertsAll(faults: seq<Stored<OutFault>>, more: seq<OutFault>)
    requires KeysApart(RowsOf(faults) + more)
    ensures RowsOf(InsertFaults(faults, more)) == RowsOf(faults) + more
  {
    hide Calendar.EventTS, Calendar.DateUTC;
    if more != [] {
      var front, f := Front(more), Last(more);
      var all := RowsOf(faults) + more;
      assert more == front + [f] && RowsOf(faults) + front == Front(all) && all == Front(all) + [f];
      assert KeysApart(Front(all)) by {
        assert forall k | 0 <= k < |all| - 1 :: Front(all)[k] == all[k];
      }
      InsertsAll(faults, front);
      var r := InsertFaults(faults, front);
      NotYetThere(r, f);
    }
  }

  lemma NotYetThere(faults: seq<Stored<OutFault>>, f: OutFault)
    requires KeysApart(RowsOf(faults) + [f])
    ensures !HasFault(faults, f.faultKey)
  {
    var all := RowsOf(faults) + [f];
    assert all[|faults|] == f && forall k | 0 <= k < |faults| :: all[k] == faults[k].row;
  }

  lemma FaultsOfOne(c: Copy, iv: Interval)
    ensures WriteInterval(c, iv).tables.faults == InsertFaults(c.tables.faults, iv.faults)
  {
    hide Mapped, UpsertCycle, InsertFaults, HighTS, SetMark, SetMarks, Guarded;
  }

  lemma PartApart(a: seq<OutFault>, b: seq<OutFault>)
    requires KeysApart(a + b)
    ensures KeysApart(a)
  {
    assert forall k | 0 <= k < |a| :: a[k] == (a + b)[k];
  }

  lemma {:induction false} FaultsWritten(c: Copy, ivs: seq<Interval>)
    requires KeysApart(RowsOf(c.tables.faults) + Flat(FaultsOf, ivs))
    ensures RowsOf(WriteIntervals(c, ivs).tables.faults) == RowsOf(c.tables.faults) + Flat(FaultsOf, ivs)
  {
    hide WriteInterval, RowsOf, KeysApart, InsertFaults;
    var rows := RowsOf(c.tables.faults);
    if ivs == [] {
      assert Flat(FaultsOf, ivs) == [];
    } else {
      var front, last := Flat(FaultsOf, Front(ivs)), FaultsOf(Last(ivs));
      assert rows + Flat(FaultsOf, ivs) == (rows + front) + last;
      PartApart(rows + front, last);
      FaultsWritten(c, Front(ivs));
      var d := WriteIntervals(c, Front(ivs));
      FaultsOfOne(d, Last(ivs));
      InsertsAll(d.tables.faults, last);
    }
  }

  lemma RunKeysApart(cfg: Settings, inputs: seq<Input>, closeAt: int)
    requires DistinctRows(inputs)
    ensures var f := WholeRun(cfg, inputs, closeAt);
            && f.closed == Emitted(f.finished)
            && KeysApart(Flat(FaultsOf, f.finished)) && KeysApart(Flat(FaultsOf, f.closed))
  {
    hide Run, CloseInterval, Step, All, DistinctRows, KeysApart, Traced, SameRows, SameTally;
    var t, f := Run(cfg, INITIAL, inputs), WholeRun(cfg, inputs, closeAt);
    RunTraced(cfg, inputs);
    TracedApart(All(FaultsOf, t), inputs);
    FlushIsClose(cfg, inputs, closeAt);
    FaultsAreRows();
    CloseKeepsAll(FaultsOf, t, FlushAt(t, closeAt), FlushResult(t));
    CloseFrame(t, FlushAt(t, closeAt), FlushResult(t));
    ClosedFaults(f);
    RunQueues(cfg, INITIAL, inputs);
    CloseQueues(t, FlushAt(t, closeAt), FlushResult(t));
    EmittedApartKeys(f.finished);
  }

  lemma ClosedFaults(f: State)
    requires f.current.None?
    ensures All(FaultsOf, f) == Flat(FaultsOf, f.finished)
  {
  }

  /** On both paths, written interval by interval into an empty replica, a run over rows with distinct ids leaves
      exactly one row in fault_events for every fault of its intervals, in order. */
  lemma FaultTableExact(cfg: Settings, inputs: seq<Input>, closeAt: int)
    requires DistinctRows(inputs)
    ensures var ivs := WholeRun(cfg, inputs, closeAt).closed;
            RowsOf(WriteIntervals(EMPTY, ivs).tables.faults) == Flat(FaultsOf, ivs)
  {
    hide WholeRun, DistinctRows, KeysApart, WriteIntervals;
    var ivs := WholeRun(cfg, inputs, closeAt).closed;
    RunKeysApart(cfg, inputs, closeAt);
    assert RowsOf(EMPTY.tables.faults) + Flat(FaultsOf, ivs) == Flat(FaultsOf, ivs);
    FaultsWritten(EMPTY, ivs);
  }

  // ---------------------------------------------------------------------------
  // Which faults arrive
  // ---------------------------------------------------------------------------

  function FactOf(f: OutFault): FaultFact {
    FaultFact(f.faultType, f.raisedAtMS, f.state, f.step, f.message)
  }

  function StoredFacts(t: Tables): seq<FaultFact> {
    seq(|t.faults|, k requires 0 <= k < |t.faults| => FactOf(t.faults[k].row))
  }

  lemma {:induction false} FactsOfFlat(ivs: seq<Interval>)
    ensures Flat(FaultFacts, ivs)
         == seq(|Flat(FaultsOf, ivs)|, k requires 0 <= k < |Flat(FaultsOf, ivs)| => FactOf(Flat(FaultsOf, ivs)[k]))
  {
    if ivs != [] {
      FactsOfFlat(Front(ivs));
    }
  }

  lemma FinishedFaults(cfg: Settings, inputs: seq<Input>, closeAt: int)
    requires forall k | 0 <= k < |inputs| :: !IsStepRun(inputs[k])
    ensures Flat(FaultFacts, WholeRun(cfg, inputs, closeAt).finished) == FromAll(FaultsIn, inputs)
  {
    hide Run, CloseInterval, SameTally, FaultFacts;
    var t := Run(cfg, INITIAL, inputs);
    RowsConserved(cfg, inputs);
    NoStepRunsNoMore(cfg, inputs);
    FlushIsClose(cfg, inputs, closeAt);
    CloseFrame(t, FlushAt(t, closeAt), FlushResult(t));
    SameFacts();
    CloseKeepsAll(FaultFacts, t, FlushAt(t, closeAt), FlushResult(t));
  }

  lemma SameFacts()
    ensures forall a, b | SameRows(a, b) :: FaultFacts(a) == FaultFacts(b)
  {
  }

  /** A dropped interval that opened at the very millisecond the fault was raised. */
  ghost predicate DroppedWithFault(ivs: seq<Interval>, iv: Interval, s: FaultFact) {
    iv in ivs && iv.endedMS <= iv.startedMS && s in FaultFacts(iv) && s.atMS == iv.startedMS
  }

  /** On the base path the fault_events table holds applied faults only, and every applied fault but those raised at the
      very millisecond at which their interval opened and was dropped. */
  lemma FaultsArrive(cfg: Settings, start: int, inputs: seq<Input>, closeAt: int, s: FaultFact)
    requires BasePath(start, inputs) && Now(start, inputs) <= closeAt && DistinctRows(inputs)
    ensures var f := WholeRun(cfg, inputs, closeAt);
            var stored := StoredFacts(WriteIntervals(EMPTY, f.closed).tables);
            && (s in stored ==> s in FromAll(FaultsIn, inputs))
            && (s in FromAll(FaultsIn, inputs) ==> s in stored || exists iv :: DroppedWithFault(f.finished, iv, s))
  {
    hide WholeRun, Now, Emitted, WriteIntervals, FaultsIn, Chain, EmittedInOrder, DistinctRows, FaultFacts;
    var f := WholeRun(cfg, inputs, closeAt);
    RunTimeline(cfg, start, inputs, closeAt);
    FinishedFaults(cfg, inputs, closeAt);
    FaultTableExact(cfg, inputs, closeAt);
    FactsOfFlat(f.closed);
    var stored := WriteIntervals(EMPTY, f.closed).tables;
    assert forall k | 0 <= k < |stored.faults| :: RowsOf(stored.faults)[k] == stored.faults[k].row;
    assert StoredFacts(stored) == Flat(FaultFacts, f.closed);
    FlatMember(FaultFacts, f.finished, s);
    FlatMember(FaultFacts, f.closed, s);
    SynthKeys.EmittedAreFinished(f.finished);
    if s in FromAll(FaultsIn, inputs) {
      var iv :| iv in f.finished && s in FaultFacts(iv);
      EmittedOrDropped(f.finished, iv);
      if iv !in f.closed {
        LostAtOpening(cfg, start, inputs, closeAt, iv, s);
        assert DroppedWithFault(f.finished, iv, s);
      }
    }
  }

  lemma LostAtOpening(cfg: Settings, start: int, inputs: seq<Input>, closeAt: int, iv: Interval, s: FaultFact)
    requires BasePath(start, inputs) && Now(start, inputs) <= closeAt
    requires iv in WholeRun(cfg, inputs, closeAt).finished && iv.endedMS <= iv.startedMS && s in FaultFacts(iv)
    ensures s.atMS == iv.startedMS
  {
    hide WholeRun, BasePath, Now;
    var k :| 0 <= k < |iv.faults| && FaultFacts(iv)[k] == s;
    ChildOrder.LostRowsAreInstant(cfg, start, inputs, closeAt, iv, ChildOrder.Faults, k);
  }
}
