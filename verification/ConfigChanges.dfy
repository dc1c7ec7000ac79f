/** Configuration changes (cmd/projector/tracker.go): when they leave the open interval alone. */
module ConfigChanges {
  import opened Source
  import opened Intervals
  import opened TrackerSpec
  import opened Frames
  import opened Results

  /** No result text is the name of a machine state: a config change always asks for an idle interval. */
  lemma ConfigAsksForIdle(t: State)
    ensures ResultForState(ConfigState(t)) == Idle
  {
    if t.current.Some? {
      match t.current.value.result {
        case Maintenance => assert "maintenance"[0] != "Maintenance"[0];
        case Manual => assert "manual"[0] != "Manual"[0];
        case Error => assert "error"[0] != "Error"[0];
        case _ =>
      }
    }
  }

  /** A configuration change is filed in the interval that is open already exactly when that is an idle one below
      the duration cap. Any other open interval it closes, although nothing happened on the machine. */
  lemma ConfigKeepsIdleOnly(cfg: Settings, t: State, i: Input)
    requires i.Config? && t.current.Some?
    ensures var keeps := !t.current.value.isProduction && t.current.value.result == Idle && !Overdue(cfg, t, AtMS(i));
            if keeps then Step(cfg, t, i).finished == t.finished
            else |Step(cfg, t, i).finished| == |t.finished| + 1
  {
    hide CloseInterval, EnsureInterval, SynthKey, RecordConfig, ConfigState, ResultForState;
    ConfigAsksForIdle(t);
    EnsureShape(cfg, t, KeyOf(i), StateOf(t, i), AtMS(i));
    var forced := if Overdue(cfg, t, AtMS(i)) then Some(ForcedResult(t.current.value)) else None;
    CloseFrame(t, AtMS(i), forced);
  }

  /** In every state a run can reach, a configuration change ends an open production order as aborted. */
  lemma ConfigAbortsProduction(cfg: Settings, inputs: seq<Input>, i: Input)
    requires i.Config?
    requires var t := Run(cfg, INITIAL, inputs); t.current.Some? && t.current.value.isProduction
    ensures var t := Run(cfg, INITIAL, inputs);
            var s := Step(cfg, t, i);
            && s.finished != [] && Last(s.finished).orderKey == t.current.value.orderKey
            && Last(s.finished).result == Aborted && Last(s.finished).faults == []
  {
    hide CloseInterval, EnsureInterval, SynthKey, RecordConfig, ConfigState, ResultForState, Run, Good, Unmarked;
    var t := Run(cfg, INITIAL, inputs);
    RunGood(cfg, inputs);
    EnsureShape(cfg, t, KeyOf(i), StateOf(t, i), AtMS(i));
    var forced := if Overdue(cfg, t, AtMS(i)) then Some(ForcedResult(t.current.value)) else None;
    CloseFrame(t, AtMS(i), forced);
  }
}
