/** The pruned fault ledger (cmd/projector/tracker.go) against the full history of ledger faults, on both paths. */
module Ledger {
  import opened Source
  import opened Intervals
  import opened TrackerSpec
  import opened Frames
  import opened Buffers

  function LedgerIn(i: Input): seq<LedgerFault> {
    if i.Apply? && i.row.FaultRow? then [LedgerFault(i.row.fault.faultType, AtMS(i))] else []
  }

  ghost predicate FaultsInTime(full: seq<LedgerFault>) {
    forall j, k | 0 <= j < k < |full| :: full[j].atMS <= full[k].atMS
  }

  /** What pruning leaves of a history. */
  function Pruned(cfg: Settings, full: seq<LedgerFault>): seq<LedgerFault> {
    if full == [] then [] else KeepFrom(full, Last(full).atMS - cfg.maxIntervalMS)
  }

  lemma {:induction false} KeepTwice(s: seq<LedgerFault>, c: int, d: int)
    requires c <= d
    ensures KeepFrom(KeepFrom(s, c), d) == KeepFrom(s, d)
  {
    if s != [] {
      KeepTwice(Front(s), c, d);
      if Last(s).atMS >= c {
        KeepSnoc(KeepFrom(Front(s), c), Last(s), d);
      } else {
        assert KeepFrom(s, c) == KeepFrom(Front(s), c);
      }
    }
  }

  lemma KeepSnoc(s: seq<LedgerFault>, f: LedgerFault, c: int)
    ensures KeepFrom(s + [f], c) == KeepFrom(s, c) + if f.atMS >= c then [f] else []
  {
    assert (s + [f])[..|s|] == s;
  }

  lemma {:induction false} KeepMembers(s: seq<LedgerFault>, c: int)
    ensures forall f :: f in KeepFrom(s, c) <==> f in s && f.atMS >= c
  {
    if s != [] {
      KeepMembers(Front(s), c);
      assert s == Front(s) + [Last(s)];
    }
  }

  /** Pruning after every fault leaves what pruning the whole history once would leave. */
  lemma PrunedStep(cfg: Settings, full: seq<LedgerFault>, faultType: string, atMS: int)
    requires FaultsInTime(full + [LedgerFault(faultType, atMS)])
    ensures RecordLedgerFault(cfg, Pruned(cfg, full), faultType, atMS)
         == Pruned(cfg, full + [LedgerFault(faultType, atMS)])
  {
    hide KeepFrom, Pruned;
    var f, d := LedgerFault(faultType, atMS), atMS - cfg.maxIntervalMS;
    PrunedAt(cfg, full, f);
    PrunedTwice(cfg, full, f);
    KeepSnoc(full, f, d);
    KeepSnoc(Pruned(cfg, full), f, d);
  }

  lemma PrunedAt(cfg: Settings, full: seq<LedgerFault>, f: LedgerFault)
    ensures Pruned(cfg, full + [f]) == KeepFrom(full + [f], f.atMS - cfg.maxIntervalMS)
  {
    hide KeepFrom;
    assert Last(full + [f]) == f;
  }

  /** Pruned already or not, a later fault leaves the same of a history. */
  lemma PrunedTwice(cfg: Settings, full: seq<LedgerFault>, f: LedgerFault)
    requires FaultsInTime(full + [f])
    ensures KeepFrom(Pruned(cfg, full), f.atMS - cfg.maxIntervalMS) == KeepFrom(full, f.atMS - cfg.maxIntervalMS)
  {
    hide KeepFrom;
    if full != [] {
      LastInTime(full, f);
      KeepTwice(full, Last(full).atMS - cfg.maxIntervalMS, f.atMS - cfg.maxIntervalMS);
    }
  }

  lemma LastInTime(full: seq<LedgerFault>, f: LedgerFault)
    requires FaultsInTime(full + [f]) && full != []
    ensures Last(full).atMS <= f.atMS
  {
    var more := full + [f];
    assert more[|full| - 1] == Last(full) && more[|full|] == f;
  }

  lemma RecordLedger(cfg: Settings, t: State, i: Input)
    requires t.current.Some?
    ensures Record(cfg, t, i).ledgerFaults
         == if i.Apply? && i.row.FaultRow?
            then RecordLedgerFault(cfg, t.ledgerFaults, i.row.fault.faultType, AtMS(i)) else t.ledgerFaults
  {
    hide RecordEvent, LedgerFaultKey, StepRunFaultKey, RecordLedgerFault, StepRunEmits, StepRunFaultCounts,
      StepRunDwell,
      ApplyDoorSignals, WithFault;
  }

  lemma StepLedger(cfg: Settings, t: State, i: Input)
    ensures Step(cfg, t, i).ledgerFaults
         == if i.Apply? && i.row.FaultRow?
            then RecordLedgerFault(cfg, t.ledgerFaults, i.row.fault.faultType, AtMS(i)) else t.ledgerFaults
  {
    hide CloseInterval, EnsureInterval, Record, VerdictOf, SynthKey, RecordLedgerFault;
    EnsureShape(cfg, t, KeyOf(i), StateOf(t, i), OpenAtMS(i));
    var forced := if Overdue(cfg, t, OpenAtMS(i)) then Some(ForcedResult(t.current.value)) else None;
    CloseFrame(t, OpenAtMS(i), forced);
    var t1 := Opened(cfg, t, i);
    RecordLedger(cfg, t1, i);
    CloseFrame(Record(cfg, t1, i), AtMS(i), VerdictOf(cfg, t1, i));
  }

  /** After a run with nondecreasing fault times the ledger is the full history, pruned once. */
  lemma {:induction false} RunLedger(cfg: Settings, inputs: seq<Input>)
    requires FaultsInTime(FromAll(LedgerIn, inputs))
    ensures Run(cfg, INITIAL, inputs).ledgerFaults == Pruned(cfg, FromAll(LedgerIn, inputs))
  {
    hide Step, RecordLedgerFault, Pruned, LedgerIn;
    if inputs == [] {
      NothingPruned(cfg);
    } else {
      var full, i := FromAll(LedgerIn, Front(inputs)), Last(inputs);
      PrefixOfFaults(full, LedgerIn(i));
      RunLedger(cfg, Front(inputs));
      StepLedger(cfg, Run(cfg, INITIAL, Front(inputs)), i);
      OneMoreFault(cfg, full, i);
    }
  }

  lemma NothingPruned(cfg: Settings)
    ensures Pruned(cfg, []) == []
  {
  }

  lemma PrefixOfFaults(a: seq<LedgerFault>, b: seq<LedgerFault>)
    requires FaultsInTime(a + b)
    ensures FaultsInTime(a)
  {
    assert forall k | 0 <= k < |a| :: a[k] == (a + b)[k];
  }

  lemma OneMoreFault(cfg: Settings, full: seq<LedgerFault>, i: Input)
    requires FaultsInTime(full + LedgerIn(i))
    ensures Pruned(cfg, full + LedgerIn(i))
         == if i.Apply? && i.row.FaultRow?
            then RecordLedgerFault(cfg, Pruned(cfg, full), i.row.fault.faultType, AtMS(i)) else Pruned(cfg, full)
  {
    hide RecordLedgerFault, Pruned;
    if i.Apply? && i.row.FaultRow? {
      PrunedStep(cfg, full, i.row.fault.faultType, AtMS(i));
    } else {
      assert full + [] == full;
    }
  }

  /** The pruned ledger answers as the full history for a window that does not reach behind the cutoff. */
  lemma PruningInvisible(cfg: Settings, full: seq<LedgerFault>, faultType: string, startMS: int, endMS: int)
    requires full != [] ==> Last(full).atMS - cfg.maxIntervalMS <= startMS - SLACK_MS
    ensures LedgerCovers(Pruned(cfg, full), faultType, startMS, endMS)
       <==> LedgerCovers(full, faultType, startMS, endMS)
  {
    var kept := Pruned(cfg, full);
    if full != [] {
      KeepMembers(full, Last(full).atMS - cfg.maxIntervalMS);
    }
    if LedgerCovers(kept, faultType, startMS, endMS) {
      var i :| 0 <= i < |kept| && kept[i].faultType == faultType
               && startMS - SLACK_MS <= kept[i].atMS <= endMS + SLACK_MS;
      assert kept[i] in kept;
      var j :| 0 <= j < |full| && full[j] == kept[i];
    }
    if LedgerCovers(full, faultType, startMS, endMS) {
      var i :| 0 <= i < |full| && full[i].faultType == faultType
               && startMS - SLACK_MS <= full[i].atMS <= endMS + SLACK_MS;
      assert full[i] in full && full[i] in kept;
      var j :| 0 <= j < |kept| && kept[j] == full[i];
    }
  }

  ghost predicate AnswersAlike(cfg: Settings, full: seq<LedgerFault>, startMS: int, endMS: int) {
    forall k :: LedgerCovers(Pruned(cfg, full), k, startMS, endMS) <==> LedgerCovers(full, k, startMS, endMS)
  }

  /** Pruning is invisible for a dwell, whatever the history up to a last fault, exactly when the dwell's window
      does not reach behind that fault by more than the duration cap. */
  lemma PruningInvisibleExactly(cfg: Settings, lastMS: int, startMS: int, endMS: int)
    requires cfg.maxIntervalMS > 0 && startMS <= endMS
    ensures (forall full | FaultsInTime(full) && full != [] && Last(full).atMS == lastMS ::
               AnswersAlike(cfg, full, startMS, endMS))
       <==> lastMS - cfg.maxIntervalMS <= startMS - SLACK_MS
  {
    if lastMS - cfg.maxIntervalMS <= startMS - SLACK_MS {
      forall full | FaultsInTime(full) && full != [] && Last(full).atMS == lastMS
        ensures AnswersAlike(cfg, full, startMS, endMS)
      {
        forall k {
          PruningInvisible(cfg, full, k, startMS, endMS);
        }
      }
    } else {
      var early, recent := LedgerFault("A", startMS - SLACK_MS), LedgerFault("B", lastMS);
      var full := [early, recent];
      assert Front(full) == [early] && Last(full) == recent;
      assert full[0] == early && LedgerCovers(full, "A", startMS, endMS);
      KeepMembers(full, lastMS - cfg.maxIntervalMS);
      var kept := Pruned(cfg, full);
      assert forall i | 0 <= i < |kept| :: kept[i] in kept;
      assert !LedgerCovers(kept, "A", startMS, endMS);
      assert !AnswersAlike(cfg, full, startMS, endMS);
    }
  }
}
