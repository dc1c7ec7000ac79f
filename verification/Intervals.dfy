/** Finished rows and the interval that buffers them (cmd/projector/tracker.go, cmd/projector/writer.go). */
module Intervals {
  import opened Source
  import opened Text

  datatype Lane = Crusher | Main | Tilter

  datatype Result =
    | Completed | FaultedRecoverable | FaultedNonRecoverable | Aborted
    | Idle | Maintenance | Manual | Error

  datatype Severity = Recoverable | NonRecoverable

  datatype SourceKind = StepRuns | Derived

  datatype OutEvent = OutEvent(eventAtMS: int, orderKey: string, row: FsmEvent)

  datatype OutSpan = OutSpan(enteredAtMS: int, exitedAtMS: int, durationMS: int, orderKey: string, state: string,
                             entryReason: string, exitReason: string)

  datatype OutDwell = OutDwell(startedAtMS: int, endedAtMS: int, durationMS: int, orderKey: string, lane: Lane,
                               state: string, step: Option<int>, seqIndex: int, eventCount: int, ioEventCount: int,
                               transitionCount: int, faultCount: int, sourceKind: SourceKind, faultType: string,
                               faultMessage: string)

  datatype OutFault = OutFault(raisedAtMS: int, orderKey: string, faultKey: string, faultType: string,
                               severity: Severity, state: string, step: int, message: string,
                               dwellSeqIndex: Option<int>)

  datatype OutToggle = OutToggle(eventAtMS: int, orderKey: string, row: Toggle)

  datatype OutDoor = OutDoor(openedAtMS: int, closedAtMS: int, durationMS: int, orderKey: string,
                             faultResetCount: int, firstResetAtMS: Option<int>, lastResetAtMS: Option<int>,
                             msToFirstReset: Option<int>, stateAtOpen: string, stepAtOpen: Option<int>,
                             stateAtClose: string, stepAtClose: Option<int>, openedInError: bool)

  datatype OutConfig = OutConfig(changedAtMS: int, orderKey: string, key: string, oldValue: string, newValue: string)

  // `dwellLog` is a history: every dwell of positive length in closing order, suppressed ones included.
  // The program keeps `stepDwells` only.
  datatype Interval = Interval(
    orderKey: string, isProduction: bool, startedMS: int, endedMS: int, result: Result,
    recipeID: Option<int>, glassCount: Option<int>,
    terminalState: string, terminalStep: Option<int>,
    faultCount: int, dominantFaultType: string, faultTypeCounts: map<string, int>,
    firstFaultMS: Option<int>, lastFaultMS: Option<int>,
    fsmEventCount: int, stepEventCount: int, stateTransitionCount: int, uniqueStates: set<string>,
    events: seq<OutEvent>, stateDurations: seq<OutSpan>, stepDwells: seq<OutDwell>, faults: seq<OutFault>,
    toggles: seq<OutToggle>, configs: seq<OutConfig>, doorEvents: seq<OutDoor>, dwellLog: seq<OutDwell>)

  function NewInterval(orderKey: string, isProduction: bool, startedMS: int, result: Result): Interval {
    Interval(orderKey, isProduction, startedMS, 0, result, None, None, "", None, 0, "", map[], None, None,
             0, 0, 0, {}, [], [], [], [], [], [], [], [])
  }

  const HOME_IDLE := "HomeIdle"
  const AUTO_CYCLE := "AutoCycle"
  const AUTO_CYCLE_COMPLETE_STEP: int := 19

  function LaneForState(state: string): Lane {
    if state == "Tilter" then Tilter else if state == "Crusher" then Crusher else Main
  }

  function ResultForState(state: string): Result {
    if state == "Maintenance" then Maintenance
    else if state == "Manual" then Manual
    else if state == "Error" then Error
    else Idle
  }

  /** The text of a result, as stored in the `result` column. */
  function ResultText(r: Result): string {
    match r
    case Completed => "completed"
    case FaultedRecoverable => "faulted_recoverable"
    case FaultedNonRecoverable => "faulted_non_recoverable"
    case Aborted => "aborted"
    case Idle => "idle"
    case Maintenance => "maintenance"
    case Manual => "manual"
    case Error => "error"
  }

  function SynthPrefix(r: Result): string {
    match r
    case Maintenance => "MAINT"
    case Manual => "MANUAL"
    case Error => "ERR"
    case _ => "IDLE"
  }

  /** `%s-%d%04d` */
  function SynthKey(r: Result, atMS: int, counter: nat): string {
    SynthPrefix(r) + ("-" + (Signed(atMS) + Pad(counter % 10_000, 4)))
  }

  predicate EmitsDwell(state: string, isProduction: bool) {
    isProduction || state != HOME_IDLE
  }

  function FaultResult(s: Severity): Result {
    if s == NonRecoverable then FaultedNonRecoverable else FaultedRecoverable
  }

  // ---------------------------------------------------------------------------
  // The most frequent fault type
  // ---------------------------------------------------------------------------

  /** k has the largest count, and is the smallest such key. */
  ghost predicate IsDominant(k: string, counts: map<string, int>) {
    k in counts && forall j | j in counts :: counts[j] < counts[k] || (counts[j] == counts[k] && LexLe(k, j))
  }

  ghost function DominantKey(counts: map<string, int>): string {
    if exists k :: IsDominant(k, counts) then
      var k :| IsDominant(k, counts);
      k
    else ""
  }

  /** A count of zero is never the largest. */
  function Positive(counts: map<string, int>): map<string, int> {
    map k | k in counts && counts[k] > 0 :: counts[k]
  }

  lemma DominantKeyUnique(k: string, counts: map<string, int>)
    requires IsDominant(k, counts)
    ensures DominantKey(counts) == k
  {
    var j := DominantKey(counts);
    assert IsDominant(j, counts);
    LexTrichotomy(j, k);
  }

  /** Counts that are not empty have a dominant key. */
  lemma {:induction false} DominantKeyExists(counts: map<string, int>)
    requires counts != map[]
    ensures IsDominant(DominantKey(counts), counts)
    decreases |counts|
  {
    var k :| k in counts;
    var rest := counts - {k};
    assert forall j | j in counts && j != k :: j in rest && rest[j] == counts[j];
    if rest == map[] {
      assert IsDominant(k, counts);
    } else {
      DominantKeyExists(rest);
      var d := DominantKey(rest);
      LexTrichotomy(d, k);
      var best := if counts[d] < counts[k] || (counts[d] == counts[k] && LexLess(k, d)) then k else d;
      forall j | j in counts ensures counts[j] < counts[best] || (counts[j] == counts[best] && LexLe(best, j)) {
        if j != k {
          assert rest[j] < rest[d] || (rest[j] == rest[d] && LexLe(d, j));
          if best == k && d != j && LexLess(d, j) && LexLess(k, d) {
            LexTransitive(k, d, j);
          }
        }
      }
      assert IsDominant(best, counts);
    }
  }
}
