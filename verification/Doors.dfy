/** Door episodes (cmd/projector/tracker.go) against the history of sensor toggles, on both paths. */
module Doors {
  import opened Sorting
  import opened Source
  import opened Intervals
  import opened TrackerSpec
  import opened Frames
  import opened Buffers

  predicate DoorEdge(s: Toggle) {
    DoorOpens(s) || DoorCloses(s)
  }

  /** The position of the last edge of the door switch. */
  function LastEdge(h: seq<Toggle>): (i: Option<nat>)
    ensures i.Some? ==> i.value < |h| && DoorEdge(h[i.value])
    ensures forall k | (if i.Some? then i.value + 1 else 0) <= k < |h| :: !DoorEdge(h[k])
  {
    if h == [] then None else if DoorEdge(Last(h)) then Some(|h| - 1) else LastEdge(Front(h))
  }

  function ResetInstants(s: seq<Toggle>): (at: seq<int>)
    ensures |at| == |s|
  {
    seq(|s|, k requires 0 <= k < |s| => Millis(s[k].ts))
  }

  /** The reset edges after position i. */
  function ResetsAfter(h: seq<Toggle>, i: nat): seq<Toggle>
    requires i < |h|
  {
    Filter(ResetRises, h[i + 1..])
  }

  function EpisodeFrom(h: seq<Toggle>, i: nat): OpenDoor
    requires i < |h|
  {
    var at := ResetInstants(ResetsAfter(h, i));
    OpenDoor(Millis(h[i].ts), h[i].currentState, h[i].currentStep, h[i].currentState == "Error", |at|,
             if at == [] then None else Some(at[0]), if at == [] then None else Some(Last(at)))
  }

  /** The episode in progress: the door's last edge opened it. */
  function OpenEpisode(h: seq<Toggle>): Option<OpenDoor> {
    var i := LastEdge(h);
    if i.Some? && DoorOpens(h[i.value]) then Some(EpisodeFrom(h, i.value)) else None
  }

  /** The episode a toggle finishes, if it is a closing edge and the last edge before it opened the door earlier. */
  function EpisodeOf(h: seq<Toggle>, s: Toggle): seq<OutDoor> {
    var d := OpenEpisode(h);
    if DoorCloses(s) && d.Some? && d.value.openedMS < Millis(s.ts) then [DoorRow(d.value, s, "", Millis(s.ts))] else []
  }

  /** The finished episodes of a history. */
  function Episodes(h: seq<Toggle>): seq<OutDoor> {
    if h == [] then [] else Episodes(Front(h)) + EpisodeOf(Front(h), Last(h))
  }

  lemma OneMoreToggle(h: seq<Toggle>, s: Toggle)
    ensures OpenEpisode(h + [s]) ==
            if DoorOpens(s) then
              Some(OpenDoor(Millis(s.ts), s.currentState, s.currentStep, s.currentState == "Error", 0, None, None))
            else if DoorCloses(s) then None
            else if ResetRises(s) && OpenEpisode(h).Some? then Some(CountReset(OpenEpisode(h).value, Millis(s.ts)))
            else OpenEpisode(h)
  {
    hide EpisodeFrom, CountReset, DoorOpens, DoorCloses, ResetRises;
    var more := h + [s];
    assert Front(more) == h && Last(more) == s;
    if DoorEdge(s) {
      NoResetsYet(h, s);
      OpensOrCloses(s);
    } else if LastEdge(h).Some? {
      EpisodeFromMore(h, s, LastEdge(h).value);
    }
  }

  lemma OpensOrCloses(s: Toggle)
    ensures DoorOpens(s) ==> !DoorCloses(s)
  {
  }

  lemma NoResetsYet(h: seq<Toggle>, s: Toggle)
    ensures EpisodeFrom(h + [s], |h|)
         == OpenDoor(Millis(s.ts), s.currentState, s.currentStep, s.currentState == "Error", 0, None, None)
  {
    hide ResetRises;
    assert (h + [s])[|h| + 1..] == [];
  }

  lemma EpisodeFromMore(h: seq<Toggle>, s: Toggle, i: nat)
    requires i < |h|
    ensures EpisodeFrom(h + [s], i)
         == if ResetRises(s) then CountReset(EpisodeFrom(h, i), Millis(s.ts)) else EpisodeFrom(h, i)
  {
    hide ResetRises, Filter;
    assert (h + [s])[i + 1..] == h[i + 1..] + [s];
    FilterSnoc(ResetRises, h[i + 1..], s);
    assert ResetsAfter(h, i) + [] == ResetsAfter(h, i);
  }

  // ---------------------------------------------------------------------------
  // The tracker follows the history
  // ---------------------------------------------------------------------------

  /** Door episodes without the order key, which tells the interval they were filed in. */
  function DoorFacts(iv: Interval): seq<OutDoor> {
    seq(|iv.doorEvents|, k requires 0 <= k < |iv.doorEvents| => iv.doorEvents[k].(orderKey := ""))
  }

  lemma ToggleDoors(t: State, s: Toggle, h: seq<Toggle>)
    requires t.current.Some? && t.openDoor == OpenEpisode(h)
    ensures var r := AddToggle(ApplyDoorSignals(t, s, Millis(s.ts)), s, Millis(s.ts));
            && r.openDoor == OpenEpisode(h + [s])
            && DoorFacts(r.current.value) == DoorFacts(t.current.value) + EpisodeOf(h, s)
  {
    hide OpenEpisode;
    OneMoreToggle(h, s);
  }

  lemma EpisodesUnfold(h: seq<Toggle>, s: Toggle)
    ensures Episodes(h + [s]) == Episodes(h) + EpisodeOf(h, s)
  {
    hide EpisodeOf;
    assert Front(h + [s]) == h && Last(h + [s]) == s;
  }

  lemma OthersKeepDoors(cfg: Settings, t: State, i: Input)
    requires t.current.Some? && !(i.Apply? && i.row.ToggleRow?)
    ensures var r := Record(cfg, t, i);
            r.openDoor == t.openDoor && r.current.value.doorEvents == t.current.value.doorEvents
  {
    hide RecordEvent, LedgerFaultKey, StepRunFaultKey, RecordLedgerFault, StepRunEmits, StepRunFaultCounts,
      StepRunDwell;
    if i.Apply? && i.row.EventRow? {
      EventBuffers(cfg, t, i.row.event, AtMS(i));
    }
  }

  lemma OpenKeepsDoor(cfg: Settings, t: State, i: Input)
    ensures Opened(cfg, t, i).openDoor == t.openDoor
  {
    hide CloseInterval, EnsureInterval, SynthKey;
    EnsureShape(cfg, t, KeyOf(i), StateOf(t, i), OpenAtMS(i));
    var forced := if Overdue(cfg, t, OpenAtMS(i)) then Some(ForcedResult(t.current.value)) else None;
    CloseFrame(t, OpenAtMS(i), forced);
  }

  ghost predicate FollowsHistory(t: State, h: seq<Toggle>) {
    t.openDoor == OpenEpisode(h) && All(DoorFacts, t) == Episodes(h)
  }

  lemma StepFollows(cfg: Settings, t: State, i: Input, h: seq<Toggle>)
    requires FollowsHistory(t, h)
    ensures FollowsHistory(Step(cfg, t, i), h + TogglesIn(i))
  {
    hide CloseInterval, Opened, Record, VerdictOf, All, OpenEpisode, Episodes, DoorFacts, EpisodeOf;
    var t1 := Opened(cfg, t, i);
    var t2 := Record(cfg, t1, i);
    OpenKeepsDoor(cfg, t, i);
    CloseFrame(t2, AtMS(i), VerdictOf(cfg, t1, i));
    assert Step(cfg, t, i).openDoor == t2.openDoor;
    if i.Apply? && i.row.ToggleRow? {
      RecordIsToggle(cfg, t1, i, i.row.toggle);
      ToggleDoors(t1, i.row.toggle, h);
      EpisodesUnfold(h, i.row.toggle);
      DoorsAdded(EpisodeOf(h, i.row.toggle), cfg, t, i);
    } else {
      OthersKeepDoors(cfg, t1, i);
      SameDoors(t1.current.value, t2.current.value);
      assert h + [] == h && Episodes(h) + [] == Episodes(h);
      assert DoorFacts(t1.current.value) + [] == DoorFacts(t1.current.value);
      DoorsAdded([], cfg, t, i);
    }
  }

  lemma RecordIsToggle(cfg: Settings, t: State, i: Input, s: Toggle)
    requires t.current.Some? && i == Apply(ToggleRow(s))
    ensures Record(cfg, t, i) == AddToggle(ApplyDoorSignals(t, s, Millis(s.ts)), s, Millis(s.ts))
  {
  }

  lemma SameDoors(a: Interval, b: Interval)
    requires a.doorEvents == b.doorEvents
    ensures DoorFacts(a) == DoorFacts(b)
  {
  }

  lemma DoorsAdded(more: seq<OutDoor>, cfg: Settings, t: State, i: Input)
    requires var t1 := Opened(cfg, t, i);
             DoorFacts(Record(cfg, t1, i).current.value) == DoorFacts(t1.current.value) + more
    ensures All(DoorFacts, Step(cfg, t, i)) == All(DoorFacts, t) + more
  {
    hide Step, All, Opened, Record;
    StepAdds(DoorFacts, more, cfg, t, i);
  }

  /** The door episodes of all intervals are exactly the episodes of the toggle history. */
  lemma {:induction false} EpisodesFollowToggles(cfg: Settings, inputs: seq<Input>)
    ensures var t := Run(cfg, INITIAL, inputs);
            var h := FromAll(TogglesIn, inputs);
            t.openDoor == OpenEpisode(h) && All(DoorFacts, t) == Episodes(h)
  {
    hide Step, TogglesIn, OpenEpisode, Episodes, DoorFacts;
    if inputs != [] {
      EpisodesFollowToggles(cfg, Front(inputs));
      StepFollows(cfg, Run(cfg, INITIAL, Front(inputs)), Last(inputs), FromAll(TogglesIn, Front(inputs)));
    } else {
      NothingFollows();
    }
  }

  lemma NothingFollows()
    ensures OpenEpisode([]) == None && Episodes([]) == []
  {
  }

  // ---------------------------------------------------------------------------
  // What an episode is
  // ---------------------------------------------------------------------------

  /** The episode between an opening edge and the next edge, which closes the door. */
  ghost predicate Between(h: seq<Toggle>, i: nat, j: nat, d: OutDoor)
    requires i < j < |h|
  {
    var resets := ResetInstants(Filter(ResetRises, h[i + 1..j]));
    && DoorOpens(h[i]) && DoorCloses(h[j]) && (forall k | i < k < j :: !DoorEdge(h[k]))
    && d.openedAtMS == Millis(h[i].ts) < d.closedAtMS == Millis(h[j].ts)
    && d.durationMS == d.closedAtMS - d.openedAtMS
    && d.stateAtOpen == h[i].currentState && d.stateAtClose == h[j].currentState
    && d.stepAtOpen == h[i].currentStep && d.stepAtClose == h[j].currentStep
    && (d.openedInError <==> h[i].currentState == "Error")
    && d.faultResetCount == |resets|
    && (resets == [] ==> d.firstResetAtMS == None && d.lastResetAtMS == None)
    && (resets != [] ==> d.firstResetAtMS == Some(resets[0]) && d.lastResetAtMS == Some(Last(resets))
                         && d.msToFirstReset == Some(resets[0] - d.openedAtMS)
                         && d.openedAtMS <= resets[0] <= Last(resets) <= d.closedAtMS)
  }

  ghost predicate TogglesInTime(h: seq<Toggle>) {
    forall j, k | 0 <= j < k < |h| :: Millis(h[j].ts) <= Millis(h[k].ts)
  }

  predicate NotLater(a: Toggle, b: Toggle) {
    Millis(a.ts) <= Millis(b.ts)
  }

  ghost predicate Within(s: seq<Toggle>, lo: int, hi: int) {
    forall k | 0 <= k < |s| :: lo <= Millis(s[k].ts) <= hi
  }

  /** The resets of a stretch of the history, by instant. */
  lemma ResetsInTime(s: seq<Toggle>, lo: int, hi: int)
    requires TogglesInTime(s) && Within(s, lo, hi)
    ensures var at := ResetInstants(Filter(ResetRises, s)); at != [] ==> lo <= at[0] <= Last(at) <= hi
  {
    hide ResetRises, Filter;
    var resets := Filter(ResetRises, s);
    FilterMembers(ResetRises, s);
    FilterSorted(NotLater, ResetRises, s);
    if resets != [] {
      assert resets[0] in resets && Last(resets) in resets;
      assert |resets| > 1 ==> NotLater(resets[0], resets[|resets| - 1]);
    }
  }

  lemma ClosingEpisode(h: seq<Toggle>, s: Toggle, i: nat)
    requires TogglesInTime(h + [s]) && LastEdge(h) == Some(i) && DoorOpens(h[i]) && DoorCloses(s)
    requires Millis(h[i].ts) < Millis(s.ts)
    ensures Between(h + [s], i, |h|, DoorRow(EpisodeFrom(h, i), s, "", Millis(s.ts)))
  {
    hide ResetRises, Filter, DoorOpens, DoorCloses, DoorEdge, TogglesInTime, Within, LastEdge, ResetInstants;
    var more, mid := h + [s], h[i + 1..];
    assert more[i + 1..|h|] == mid && more[i] == h[i] && more[|h|] == s;
    assert ResetInstants(ResetsAfter(h, i)) == ResetInstants(Filter(ResetRises, more[i + 1..|h|]));
    MiddleInTime(h, s, i);
    ResetsInTime(mid, Millis(h[i].ts), Millis(s.ts));
    NoEdgeBetween(h, s, i);
  }

  lemma NoEdgeBetween(h: seq<Toggle>, s: Toggle, i: nat)
    requires LastEdge(h) == Some(i)
    ensures forall k | i < k < |h| :: !DoorEdge((h + [s])[k])
  {
    assert forall k | i < k < |h| :: (h + [s])[k] == h[k];
  }

  lemma MiddleInTime(h: seq<Toggle>, s: Toggle, i: nat)
    requires TogglesInTime(h + [s]) && i < |h|
    ensures TogglesInTime(h[i + 1..]) && Within(h[i + 1..], Millis(h[i].ts), Millis(s.ts))
  {
    var more, mid := h + [s], h[i + 1..];
    assert more[i] == h[i] && more[|h|] == s;
    assert forall k | 0 <= k < |mid| :: mid[k] == more[i + 1 + k];
  }

  lemma BetweenLater(h: seq<Toggle>, s: Toggle, i: nat, j: nat, d: OutDoor)
    requires i < j < |h| && Between(h, i, j, d)
    ensures Between(h + [s], i, j, d)
  {
    hide ResetRises, Filter, DoorOpens, DoorCloses, DoorEdge;
    assert (h + [s])[i + 1..j] == h[i + 1..j];
    assert forall k | 0 <= k < |h| :: (h + [s])[k] == h[k];
  }

  /** An episode of the history, whose closing edge is not beyond position `last`. */
  ghost predicate IsEpisode(h: seq<Toggle>, d: OutDoor, last: int) {
    exists i: nat, j: nat | i < j < |h| && j <= last :: Between(h, i, j, d)
  }

  lemma IsEpisodeLater(h: seq<Toggle>, s: Toggle, d: OutDoor, last: int)
    requires IsEpisode(h, d, last)
    ensures IsEpisode(h + [s], d, last)
  {
    hide Between;
    var i: nat, j: nat :| i < j < |h| && j <= last && Between(h, i, j, d);
    BetweenLater(h, s, i, j, d);
  }

  /** No episode closes after the last edge of the history. */
  lemma ClosesByLastEdge(h: seq<Toggle>, d: OutDoor)
    requires IsEpisode(h, d, |h|)
    ensures LastEdge(h).Some? && IsEpisode(h, d, LastEdge(h).value)
  {
    var i: nat, j: nat :| i < j < |h| && j <= |h| && Between(h, i, j, d);
    assert DoorEdge(h[j]);
  }

  /** An episode ends no later than the door opens again. */
  lemma EndsBeforeReopening(h: seq<Toggle>, d: OutDoor)
    requires TogglesInTime(h) && IsEpisode(h, d, |h|) && LastEdge(h).Some?
    ensures d.closedAtMS <= Millis(h[LastEdge(h).value].ts)
  {
    hide Between, LastEdge, TogglesInTime, Millis;
    ClosesByLastEdge(h, d);
    var i: nat, j: nat :| i < j < |h| && j <= LastEdge(h).value && Between(h, i, j, d);
    BetweenCloses(h, i, j, d);
    InTimeAt(h, j, LastEdge(h).value);
  }

  lemma InTimeAt(h: seq<Toggle>, j: nat, k: nat)
    requires TogglesInTime(h) && j <= k < |h|
    ensures Millis(h[j].ts) <= Millis(h[k].ts)
  {
  }

  lemma BetweenCloses(h: seq<Toggle>, i: nat, j: nat, d: OutDoor)
    requires i < j < |h| && Between(h, i, j, d)
    ensures d.closedAtMS == Millis(h[j].ts)
  {
  }

  /** With nondecreasing toggle times every finished episode runs from an opening edge to the next edge, a closing
      one, and counts the resets in between; episodes do not overlap. */
  lemma {:induction false} EpisodesExact(h: seq<Toggle>, k: nat)
    requires TogglesInTime(h) && k < |Episodes(h)|
    ensures IsEpisode(h, Episodes(h)[k], |h|)
    ensures k > 0 ==> Episodes(h)[k - 1].closedAtMS <= Episodes(h)[k].openedAtMS
  {
    hide Between, IsEpisode, EpisodeFrom, DoorOpens, DoorCloses, DoorEdge, TogglesInTime;
    var front, s := Front(h), Last(h);
    assert h == front + [s];
    PrefixOfToggles(front, s);
    if k < |Episodes(front)| {
      EpisodesExact(front, k);
      IsEpisodeLater(front, s, Episodes(front)[k], |front|);
      ByLength(h, Episodes(h)[k], |front|);
    } else {
      NewEpisode(front, s);
      if k > 0 {
        EpisodesExact(front, k - 1);
        EndsBeforeReopening(front, Episodes(front)[k - 1]);
        OpenedAtLastEdge(front, s);
      }
    }
  }

  lemma PrefixOfToggles(h: seq<Toggle>, s: Toggle)
    requires TogglesInTime(h + [s])
    ensures TogglesInTime(h)
  {
    assert forall k | 0 <= k < |h| :: h[k] == (h + [s])[k];
  }

  lemma ByLength(h: seq<Toggle>, d: OutDoor, last: int)
    requires IsEpisode(h, d, last)
    ensures IsEpisode(h, d, |h|)
  {
    hide Between;
  }

  lemma OpenedAtLastEdge(h: seq<Toggle>, s: Toggle)
    requires EpisodeOf(h, s) != []
    ensures LastEdge(h).Some? && EpisodeOf(h, s)[0].openedAtMS == Millis(h[LastEdge(h).value].ts)
  {
    hide ResetsAfter;
  }

  lemma NewEpisode(h: seq<Toggle>, s: Toggle)
    requires TogglesInTime(h + [s]) && EpisodeOf(h, s) != []
    ensures IsEpisode(h + [s], EpisodeOf(h, s)[0], |h + [s]|) && LastEdge(h).Some?
  {
    hide Between, ResetsAfter;
    var i := LastEdge(h).value;
    ClosingEpisode(h, s, i);
    assert Between(h + [s], i, |h|, EpisodeOf(h, s)[0]);
  }

  /** Every opening edge whose next edge closes the door later has its episode. */
  lemma {:induction false} EpisodesComplete(h: seq<Toggle>, i: nat, j: nat)
    requires TogglesInTime(h) && i < j < |h| && DoorOpens(h[i]) && DoorCloses(h[j])
    requires Millis(h[i].ts) < Millis(h[j].ts) && forall k | i < k < j :: !DoorEdge(h[k])
    ensures exists k | 0 <= k < |Episodes(h)| :: Between(h, i, j, Episodes(h)[k])
  {
    hide DoorOpens, DoorCloses, TogglesInTime, Between, EpisodeOf, LastEdge;
    var front, s := Front(h), Last(h);
    assert h == front + [s];
    PrefixOfToggles(front, s);
    if j < |front| {
      EpisodesComplete(front, i, j);
      var k :| 0 <= k < |Episodes(front)| && Between(front, i, j, Episodes(front)[k]);
      BetweenLater(front, s, i, j, Episodes(front)[k]);
      assert Episodes(h)[k] == Episodes(front)[k];
    } else {
      LastEdgeIs(front, i);
      FinishedByLastEdge(front, s, i);
      ClosingEpisode(front, s, i);
      assert Episodes(h)[|Episodes(front)|] == EpisodeOf(front, s)[0];
    }
  }

  lemma LastEdgeIs(h: seq<Toggle>, i: nat)
    requires i < |h| && DoorEdge(h[i]) && forall k | i < k < |h| :: !DoorEdge(h[k])
    ensures LastEdge(h) == Some(i)
  {
    hide DoorEdge;
    var e := LastEdge(h);
  }

  lemma FinishedByLastEdge(h: seq<Toggle>, s: Toggle, i: nat)
    requires LastEdge(h) == Some(i) && DoorOpens(h[i]) && DoorCloses(s) && Millis(h[i].ts) < Millis(s.ts)
    ensures EpisodeOf(h, s) == [DoorRow(EpisodeFrom(h, i), s, "", Millis(s.ts))]
  {
    hide DoorOpens, DoorCloses, ResetsAfter;
  }

  // ---------------------------------------------------------------------------
  // In the names of the inputs
  // ---------------------------------------------------------------------------

  /** The positions between two toggles at which the input `X0.7` rises. */
  function ResetPositions(h: seq<Toggle>, i: nat, j: nat): (r: set<nat>)
    requires i < j <= |h|
    ensures forall m | m in r :: i < m < j
  {
    set m: nat | i < m < j && h[m].inputID == "X0.7" && h[m].valueFrom == 0 && h[m].valueTo == 1
  }

  /** An episode, told by the inputs: `X0.0` falls, then rises, does neither in between, and `X0.7` rises meanwhile as
      often as resets are counted. */
  ghost predicate TellsEpisode(h: seq<Toggle>, i: nat, j: nat, d: OutDoor)
    requires i < j < |h|
  {
    var resets := ResetPositions(h, i, j);
    && h[i].inputID == h[j].inputID == "X0.0"
    && h[i].valueFrom == 1 && h[i].valueTo == 0 && h[j].valueFrom == 0 && h[j].valueTo == 1
    && (forall m | i < m < j && h[m].inputID == "X0.0" ::
          !(h[m].valueFrom == 1 && h[m].valueTo == 0) && !(h[m].valueFrom == 0 && h[m].valueTo == 1))
    && d.openedAtMS == Millis(h[i].ts) < d.closedAtMS == Millis(h[j].ts)
    && d.durationMS == d.closedAtMS - d.openedAtMS
    && d.stateAtOpen == h[i].currentState && d.stateAtClose == h[j].currentState
    && d.stepAtOpen == h[i].currentStep && d.stepAtClose == h[j].currentStep
    && (d.openedInError <==> h[i].currentState == "Error")
    && d.faultResetCount == |resets|
    && (resets == {} ==> d.firstResetAtMS == None && d.lastResetAtMS == None)
    && (resets != {} ==>
          && d.firstResetAtMS.Some? && d.lastResetAtMS.Some?
          && d.msToFirstReset == Some(d.firstResetAtMS.value - d.openedAtMS)
          && (exists m :: m in resets && Millis(h[m].ts) == d.firstResetAtMS.value)
          && (exists m :: m in resets && Millis(h[m].ts) == d.lastResetAtMS.value)
          && forall m | m in resets :: d.firstResetAtMS.value <= Millis(h[m].ts) <= d.lastResetAtMS.value)
  }

  lemma {:induction false} ResetsAtPositions(h: seq<Toggle>, i: nat, j: nat)
    requires i < j <= |h|
    ensures |Filter(ResetRises, h[i + 1..j])| == |ResetPositions(h, i, j)|
  {
    hide ResetRises, ResetPositions, Filter;
    if j == i + 1 {
      NoPositions(h, i);
    } else {
      ResetsAtPositions(h, i, j - 1);
      assert h[i + 1..j] == h[i + 1..j - 1] + [h[j - 1]];
      FilterSnoc(ResetRises, h[i + 1..j - 1], h[j - 1]);
      PositionMore(h, i, j);
    }
  }

  lemma NoPositions(h: seq<Toggle>, i: nat)
    requires i + 1 <= |h|
    ensures ResetPositions(h, i, i + 1) == {} && Filter(ResetRises, h[i + 1..i + 1]) == []
  {
  }

  lemma PositionMore(h: seq<Toggle>, i: nat, j: nat)
    requires i + 1 < j <= |h|
    ensures |ResetPositions(h, i, j)| == |ResetPositions(h, i, j - 1)| + if ResetRises(h[j - 1]) then 1 else 0
  {
    var one: set<nat> := if ResetRises(h[j - 1]) then {j - 1} else {};
    assert ResetPositions(h, i, j) == ResetPositions(h, i, j - 1) + one;
  }

  /** A toggle is a reset between two others exactly when it stands at such a position. */
  lemma ResetAt(h: seq<Toggle>, i: nat, j: nat, s: Toggle)
    requires i < j <= |h|
    ensures s in Filter(ResetRises, h[i + 1..j]) <==> exists m :: m in ResetPositions(h, i, j) && h[m] == s
  {
    hide Filter;
    var part := h[i + 1..j];
    FilterMembers(ResetRises, part);
    if s in part && ResetRises(s) {
      var k :| 0 <= k < |part| && part[k] == s;
      assert i + 1 + k in ResetPositions(h, i, j) && h[i + 1 + k] == s;
    }
    forall m | m in ResetPositions(h, i, j) ensures h[m] in part && ResetRises(h[m]) {
      assert part[m - i - 1] == h[m];
    }
  }

  lemma ResetBounds(h: seq<Toggle>, i: nat, j: nat)
    requires TogglesInTime(h) && i < j <= |h| && ResetPositions(h, i, j) != {}
    ensures var at := ResetInstants(Filter(ResetRises, h[i + 1..j]));
            && at != []
            && (exists m :: m in ResetPositions(h, i, j) && Millis(h[m].ts) == at[0])
            && (exists m :: m in ResetPositions(h, i, j) && Millis(h[m].ts) == Last(at))
            && forall m | m in ResetPositions(h, i, j) :: at[0] <= Millis(h[m].ts) <= Last(at)
  {
    hide ResetPositions, ResetRises, Filter, TogglesInTime;
    var got := Filter(ResetRises, h[i + 1..j]);
    ResetsAtPositions(h, i, j);
    PartInTime(h, i, j);
    FilterSorted(NotLater, ResetRises, h[i + 1..j]);
    ResetAt(h, i, j, got[0]);
    ResetAt(h, i, j, Last(got));
    forall m | m in ResetPositions(h, i, j)
      ensures Millis(got[0].ts) <= Millis(h[m].ts) <= Millis(Last(got).ts)
    {
      ResetAt(h, i, j, h[m]);
      var k :| 0 <= k < |got| && got[k] == h[m];
      assert (k == 0 || NotLater(got[0], got[k])) && (k == |got| - 1 || NotLater(got[k], got[|got| - 1]));
    }
  }

  lemma PartInTime(h: seq<Toggle>, i: nat, j: nat)
    requires TogglesInTime(h) && i < j <= |h|
    ensures SortedBy(NotLater, h[i + 1..j])
  {
    var part := h[i + 1..j];
    assert forall k | 0 <= k < |part| :: part[k] == h[i + 1 + k];
  }

  lemma BetweenTells(h: seq<Toggle>, i: nat, j: nat, d: OutDoor)
    requires TogglesInTime(h) && i < j < |h| && Between(h, i, j, d)
    ensures TellsEpisode(h, i, j, d)
  {
    hide ResetPositions, ResetRises, Filter, TogglesInTime;
    ResetsAtPositions(h, i, j);
    if ResetPositions(h, i, j) != {} {
      ResetBounds(h, i, j);
    }
  }

  /** Every finished episode, in the names of the inputs. */
  lemma EpisodesNamed(h: seq<Toggle>, k: nat)
    requires TogglesInTime(h) && k < |Episodes(h)|
    ensures exists i: nat, j: nat :: i < j < |h| && TellsEpisode(h, i, j, Episodes(h)[k])
  {
    hide Between, TellsEpisode, TogglesInTime;
    EpisodesExact(h, k);
    var i: nat, j: nat :| i < j < |h| && j <= |h| && Between(h, i, j, Episodes(h)[k]);
    BetweenTells(h, i, j, Episodes(h)[k]);
  }

  /** And every fall of `X0.0` whose next edge is a later rise has its episode. */
  lemma NamedEpisodesExist(h: seq<Toggle>, i: nat, j: nat)
    requires TogglesInTime(h) && i < j < |h| && h[i].inputID == h[j].inputID == "X0.0"
    requires h[i].valueFrom == 1 && h[i].valueTo == 0 && h[j].valueFrom == 0 && h[j].valueTo == 1
    requires forall m | i < m < j && h[m].inputID == "X0.0" ::
               !(h[m].valueFrom == 1 && h[m].valueTo == 0) && !(h[m].valueFrom == 0 && h[m].valueTo == 1)
    requires Millis(h[i].ts) < Millis(h[j].ts)
    ensures exists k :: 0 <= k < |Episodes(h)| && TellsEpisode(h, i, j, Episodes(h)[k])
  {
    hide Between, TellsEpisode, TogglesInTime;
    EpisodesComplete(h, i, j);
    var k :| 0 <= k < |Episodes(h)| && Between(h, i, j, Episodes(h)[k]);
    BetweenTells(h, i, j, Episodes(h)[k]);
  }
}
