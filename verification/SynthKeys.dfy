/** Synthetic order keys (cmd/projector/tracker.go): distinct although their counter wraps at 10000. */
module SynthKeys {
  import opened Source
  import opened Text
  import opened Intervals
  import opened TrackerSpec
  import opened Frames
  import opened Timeline

  lemma PrefixHasNoDash(r: Result)
    ensures '-' !in SynthPrefix(r)
  {
  }

  /** A synthetic key tells the prefix, the start and the last four digits of the counter. */
  lemma SynthKeyInjective(r: Result, a: int, m: nat, s: Result, b: int, n: nat)
    requires SynthKey(r, a, m) == SynthKey(s, b, n)
    ensures SynthPrefix(r) == SynthPrefix(s) && a == b && m % 10_000 == n % 10_000
  {
    hide SynthPrefix, Signed, Pad;
    var x, y := Signed(a) + Pad(m % 10_000, 4), Signed(b) + Pad(n % 10_000, 4);
    PrefixHasNoDash(r);
    PrefixHasNoDash(s);
    SplitAt('-', SynthPrefix(r), SynthPrefix(s), x, y);
    assert Signed(a) == x[..|x| - 4] == y[..|y| - 4] == Signed(b);
    assert Pad(m % 10_000, 4) == x[|x| - 4..] == y[|y| - 4..] == Pad(n % 10_000, 4);
    SignedInjective(a, b);
    FourDigits();
    PadOrder(m % 10_000, n % 10_000, 4);
  }

  lemma FourDigits()
    ensures Pow10(4) == 10_000
  {
    assert Pow10(4) == 100 * Pow10(2);
  }

  /** A non-production interval carries the synthetic key of its start. */
  ghost predicate Keyed(iv: Interval) {
    iv.isProduction || exists r: Result, n: nat :: iv.orderKey == SynthKey(r, iv.startedMS, n)
  }

  ghost predicate AllKeyed(t: State) {
    (t.current.Some? ==> Keyed(t.current.value)) && forall k | 0 <= k < |t.finished| :: Keyed(t.finished[k])
  }

  lemma CloseKeyed(t: State, atMS: int, forced: Option<Result>)
    requires AllKeyed(t)
    ensures AllKeyed(CloseInterval(t, atMS, forced))
  {
    hide CloseInterval, SynthKey, SameRows, SameTally;
    CloseFrame(t, atMS, forced);
    var c := CloseInterval(t, atMS, forced);
    if t.current.Some? {
      assert c.finished == t.finished + [Last(c.finished)];
    }
  }

  lemma StepKeyed(cfg: Settings, t: State, i: Input)
    requires AllKeyed(t)
    ensures AllKeyed(Step(cfg, t, i))
  {
    hide CloseInterval, EnsureInterval, Record, SynthKey, VerdictOf;
    EnsureShape(cfg, t, KeyOf(i), StateOf(t, i), OpenAtMS(i));
    var forced := if Overdue(cfg, t, OpenAtMS(i)) then Some(ForcedResult(t.current.value)) else None;
    CloseKeyed(t, OpenAtMS(i), forced);
    var t1 := Opened(cfg, t, i);
    assert AllKeyed(t1);
    CloseKeyed(Record(cfg, t1, i), AtMS(i), VerdictOf(cfg, t1, i));
  }

  lemma {:induction false} RunKeyed(cfg: Settings, t: State, inputs: seq<Input>)
    requires AllKeyed(t)
    ensures AllKeyed(Run(cfg, t, inputs))
  {
    hide Step, AllKeyed;
    if inputs != [] {
      RunKeyed(cfg, t, Front(inputs));
      StepKeyed(cfg, Run(cfg, t, Front(inputs)), Last(inputs));
    }
  }

  lemma {:induction false} EmittedAreFinished(ivs: seq<Interval>)
    ensures forall iv | iv in Emitted(ivs) :: iv in ivs
  {
    if ivs != [] {
      EmittedAreFinished(Front(ivs));
    }
  }

  /** The emitted non-production intervals of a base-path run have pairwise distinct keys. */
  lemma KeysDistinct(cfg: Settings, start: int, inputs: seq<Input>, closeAt: int, i: nat, j: nat)
    requires BasePath(start, inputs) && Now(start, inputs) <= closeAt
    requires i < j < |WholeRun(cfg, inputs, closeAt).closed|
    requires !WholeRun(cfg, inputs, closeAt).closed[i].isProduction
    requires !WholeRun(cfg, inputs, closeAt).closed[j].isProduction
    ensures WholeRun(cfg, inputs, closeAt).closed[i].orderKey != WholeRun(cfg, inputs, closeAt).closed[j].orderKey
  {
    hide Run, FlushOpen, SynthKey, Chain;
    var f := WholeRun(cfg, inputs, closeAt);
    RunTimeline(cfg, start, inputs, closeAt);
    WholeRunKeyed(cfg, inputs, closeAt);
    EmittedApart(f.finished, closeAt + 1, i, j);
    EmittedAreFinished(f.finished);
    var a, b := f.closed[i], f.closed[j];
    assert a in f.finished && b in f.finished;
    var r, m :| a.orderKey == SynthKey(r, a.startedMS, m);
    var s, n :| b.orderKey == SynthKey(s, b.startedMS, n);
    if a.orderKey == b.orderKey {
      SynthKeyInjective(r, a.startedMS, m, s, b.startedMS, n);
    }
  }

  lemma WholeRunKeyed(cfg: Settings, inputs: seq<Input>, closeAt: int)
    ensures AllKeyed(WholeRun(cfg, inputs, closeAt))
  {
    hide Run, CloseInterval, Keyed;
    RunKeyed(cfg, INITIAL, inputs);
    FlushIsClose(cfg, inputs, closeAt);
    CloseKeyed(Run(cfg, INITIAL, inputs), FlushAt(Run(cfg, INITIAL, inputs), closeAt),
               FlushResult(Run(cfg, INITIAL, inputs)));
  }
}
