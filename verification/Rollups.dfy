/** Aggregation over finished rows (cmd/projector/rollup.go): half-open windows, clipped occupancy, and the sums
    that take hours to days. */
module Rollups {
  import opened Intervals
  import opened Frames

  const HOUR_MS: int := 3_600_000

  // ---------------------------------------------------------------------------
  // Occupancy
  // ---------------------------------------------------------------------------

  /** The length of the intersection of [s, e) and [lo, hi). */
  function OverlapMS(s: int, e: int, lo: int, hi: int): int {
    var a := if lo > s then lo else s;
    var b := if hi < e then hi else e;
    if b <= a then 0 else b - a
  }

  datatype Column = RunTime | ErrorTime | MaintenanceTime | IdleTime

  function ColumnOf(state: string): Column {
    if state == "AutoCycle" then RunTime
    else if state == "Error" then ErrorTime
    else if state == "Maintenance" then MaintenanceTime
    else IdleTime
  }

  datatype Occupancy = Occupancy(run: int, errored: int, maintenance: int, idle: int)

  function Value(o: Occupancy, c: Column): int {
    match c
    case RunTime => o.run
    case ErrorTime => o.errored
    case MaintenanceTime => o.maintenance
    case IdleTime => o.idle
  }

  /** The clipped length of all spans of one column. */
  function Occupied(spans: seq<OutSpan>, c: Column, lo: int, hi: int): int {
    if spans == [] then 0
    else
      var s := Last(spans);
      Occupied(Front(spans), c, lo, hi)
      + if ColumnOf(s.state) == c then OverlapMS(s.enteredAtMS, s.exitedAtMS, lo, hi) else 0
  }

  /** stateOccupancy: the rows that touch the bucket, clipped and added up by column. */
  method StateOccupancy(spans: seq<OutSpan>, lo: int, hi: int) returns (o: Occupancy)
    ensures forall c :: Value(o, c) == Occupied(spans, c, lo, hi)
  {
    o := Occupancy(0, 0, 0, 0);
    for k := 0 to |spans|
      invariant forall c :: Value(o, c) == Occupied(spans[..k], c, lo, hi)
    {
      var s := spans[k];
      assert Front(spans[..k + 1]) == spans[..k] && Last(spans[..k + 1]) == s;
      if s.exitedAtMS > lo && s.enteredAtMS < hi {
        var ms := OverlapMS(s.enteredAtMS, s.exitedAtMS, lo, hi);
        if ms > 0 {
          match ColumnOf(s.state) {
            case RunTime => o := o.(run := o.run + ms);
            case ErrorTime => o := o.(errored := o.errored + ms);
            case MaintenanceTime => o := o.(maintenance := o.maintenance + ms);
            case IdleTime => o := o.(idle := o.idle + ms);
          }
        }
      }
    }
    assert spans[..|spans|] == spans;
  }

  // The same, counted instant by instant.

  predicate Covers(s: OutSpan, ms: int) {
    s.enteredAtMS <= ms < s.exitedAtMS
  }

  ghost predicate HeldAt(spans: seq<OutSpan>, c: Column, ms: int) {
    exists k | 0 <= k < |spans| :: ColumnOf(spans[k].state) == c && Covers(spans[k], ms)
  }

  /** The instants of a bucket at which the machine was in a state of this column. */
  ghost function Instants(spans: seq<OutSpan>, c: Column, lo: int, hi: int): set<int> {
    set ms | lo <= ms < hi && HeldAt(spans, c, ms)
  }

  /** No two spans share an instant. */
  ghost predicate Apart(spans: seq<OutSpan>) {
    forall j, k | 0 <= j < k < |spans| ::
      spans[j].exitedAtMS <= spans[k].enteredAtMS || spans[k].exitedAtMS <= spans[j].enteredAtMS
  }

  /** The instants of [a, b). */
  ghost function Range(a: int, b: int): (r: set<int>)
    ensures forall ms :: ms in r <==> a <= ms < b
    ensures |r| == if a <= b then b - a else 0
    decreases b - a
  {
    if b <= a then {} else Range(a, b - 1) + {b - 1}
  }

  /** The instants of a bucket one span covers. */
  ghost function Clip(s: OutSpan, lo: int, hi: int): set<int> {
    Range(if lo > s.enteredAtMS then lo else s.enteredAtMS, if hi < s.exitedAtMS then hi else s.exitedAtMS)
  }

  lemma HeldGrows(spans: seq<OutSpan>, s: OutSpan, c: Column, ms: int)
    ensures HeldAt(spans + [s], c, ms) <==> HeldAt(spans, c, ms) || (ColumnOf(s.state) == c && Covers(s, ms))
  {
    hide ColumnOf, Covers;
    var more := spans + [s];
    assert more[|spans|] == s && forall k | 0 <= k < |spans| :: more[k] == spans[k];
    if HeldAt(spans, c, ms) {
      var k :| 0 <= k < |spans| && ColumnOf(spans[k].state) == c && Covers(spans[k], ms);
      assert more[k] == spans[k];
    }
    if ColumnOf(s.state) == c && Covers(s, ms) {
      assert ColumnOf(more[|spans|].state) == c && Covers(more[|spans|], ms);
    }
  }

  lemma InstantsGrow(spans: seq<OutSpan>, s: OutSpan, c: Column, lo: int, hi: int)
    ensures Instants(spans + [s], c, lo, hi)
         == Instants(spans, c, lo, hi) + if ColumnOf(s.state) == c then Clip(s, lo, hi) else {}
  {
    hide ColumnOf, HeldAt;
    var a, b := Instants(spans + [s], c, lo, hi), Instants(spans, c, lo, hi);
    var d := if ColumnOf(s.state) == c then Clip(s, lo, hi) else {};
    forall ms ensures ms in a <==> ms in b || ms in d {
      HeldGrows(spans, s, c, ms);
    }
  }

  lemma InstantsApart(spans: seq<OutSpan>, s: OutSpan, c: Column, lo: int, hi: int)
    requires Apart(spans + [s])
    ensures Instants(spans, c, lo, hi) !! Clip(s, lo, hi)
  {
    hide ColumnOf;
    var more := spans + [s];
    forall ms | ms in Instants(spans, c, lo, hi) ensures ms !in Clip(s, lo, hi) {
      var k :| 0 <= k < |spans| && ColumnOf(spans[k].state) == c && Covers(spans[k], ms);
      assert more[k] == spans[k] && more[|spans|] == s;
    }
  }

  lemma NoInstants(c: Column, lo: int, hi: int)
    ensures Instants([], c, lo, hi) == {}
  {
  }

  lemma ClipSize(s: OutSpan, lo: int, hi: int)
    ensures |Clip(s, lo, hi)| == OverlapMS(s.enteredAtMS, s.exitedAtMS, lo, hi)
  {
  }

  lemma ApartFront(spans: seq<OutSpan>)
    requires Apart(spans) && spans != []
    ensures Apart(Front(spans))
  {
    assert forall k | 0 <= k < |Front(spans)| :: Front(spans)[k] == spans[k];
  }

  /** For spans that are apart, a column is the number of milliseconds of the bucket spent in its states. */
  lemma {:induction false} OccupiedCountsInstants(spans: seq<OutSpan>, c: Column, lo: int, hi: int)
    requires Apart(spans)
    ensures Occupied(spans, c, lo, hi) == |Instants(spans, c, lo, hi)|
  {
    hide ColumnOf, Instants, Clip, OverlapMS, Apart;
    if spans == [] {
      NoInstants(c, lo, hi);
    } else {
      var front, s := Front(spans), Last(spans);
      assert spans == front + [s];
      ApartFront(spans);
      OccupiedCountsInstants(front, c, lo, hi);
      InstantsGrow(front, s, c, lo, hi);
      InstantsApart(front, s, c, lo, hi);
      ClipSize(s, lo, hi);
    }
  }

  function Sum(o: Occupancy): int {
    o.run + o.errored + o.maintenance + o.idle
  }

  ghost predicate CoveredAt(spans: seq<OutSpan>, ms: int) {
    exists k | 0 <= k < |spans| :: Covers(spans[k], ms)
  }

  ghost predicate Covered(spans: seq<OutSpan>, lo: int, hi: int) {
    forall ms | lo <= ms < hi :: CoveredAt(spans, ms)
  }

  /** An instant belongs to at most one column. */
  lemma ColumnsApart(spans: seq<OutSpan>, lo: int, hi: int, c: Column, d: Column)
    requires Apart(spans) && c != d
    ensures Instants(spans, c, lo, hi) !! Instants(spans, d, lo, hi)
  {
    hide ColumnOf;
  }

  /** The four columns of a bucket never exceed its width, and fill it exactly when the spans cover it. */
  lemma OccupancyPartitions(spans: seq<OutSpan>, lo: int, hi: int, o: Occupancy)
    requires Apart(spans) && lo <= hi
    requires forall c :: Value(o, c) == Occupied(spans, c, lo, hi)
    ensures 0 <= Sum(o) <= hi - lo
    ensures Sum(o) == hi - lo <==> Covered(spans, lo, hi)
  {
    hide Occupied, ColumnOf, Covers, Apart, HeldAt, Covered;
    var a, b := Instants(spans, RunTime, lo, hi), Instants(spans, ErrorTime, lo, hi);
    var c, d := Instants(spans, MaintenanceTime, lo, hi), Instants(spans, IdleTime, lo, hi);
    assert Value(o, RunTime) == |a| && Value(o, ErrorTime) == |b|
           && Value(o, MaintenanceTime) == |c| && Value(o, IdleTime) == |d| by {
      forall k {
        OccupiedCountsInstants(spans, k, lo, hi);
      }
    }
    ColumnsApart(spans, lo, hi, RunTime, ErrorTime);
    ColumnsApart(spans, lo, hi, RunTime, MaintenanceTime);
    ColumnsApart(spans, lo, hi, RunTime, IdleTime);
    ColumnsApart(spans, lo, hi, ErrorTime, MaintenanceTime);
    ColumnsApart(spans, lo, hi, ErrorTime, IdleTime);
    ColumnsApart(spans, lo, hi, MaintenanceTime, IdleTime);
    var all := a + b + c + d;
    assert |all| == Sum(o);
    SubsetSizes(all, Range(lo, hi));
    AllIsCovered(spans, lo, hi);
  }

  lemma SubsetSizes(a: set<int>, b: set<int>)
    requires a <= b
    ensures |a| <= |b| && (|a| == |b| <==> a == b)
  {
    assert b == a + (b - a);
    assert |b| == |a| + |b - a|;
  }

  lemma AllIsCovered(spans: seq<OutSpan>, lo: int, hi: int)
    ensures Instants(spans, RunTime, lo, hi) + Instants(spans, ErrorTime, lo, hi)
            + Instants(spans, MaintenanceTime, lo, hi) + Instants(spans, IdleTime, lo, hi) == Range(lo, hi)
       <==> Covered(spans, lo, hi)
  {
    hide ColumnOf, Covers, HeldAt;
    var all := Instants(spans, RunTime, lo, hi) + Instants(spans, ErrorTime, lo, hi)
               + Instants(spans, MaintenanceTime, lo, hi) + Instants(spans, IdleTime, lo, hi);
    forall ms | lo <= ms < hi ensures ms in all <==> CoveredAt(spans, ms) {
      HeldInSomeColumn(spans, ms);
    }
    assert forall ms | ms in Range(lo, hi) :: ms in all <==> CoveredAt(spans, ms);
    assert all <= Range(lo, hi);
  }

  lemma HeldInSomeColumn(spans: seq<OutSpan>, ms: int)
    ensures CoveredAt(spans, ms) <==>
            HeldAt(spans, RunTime, ms) || HeldAt(spans, ErrorTime, ms)
            || HeldAt(spans, MaintenanceTime, ms) || HeldAt(spans, IdleTime, ms)
  {
    hide ColumnOf, Covers;
    if CoveredAt(spans, ms) {
      var k :| 0 <= k < |spans| && Covers(spans[k], ms);
      assert HeldAt(spans, ColumnOf(spans[k].state), ms);
    }
  }
}
