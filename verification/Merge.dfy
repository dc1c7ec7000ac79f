/** The merge of one tick: bounded pages, the safe window, and what a sequence of ticks applies. */
module Merge {
  import opened Source
  import opened Sorting

  const TABLES: nat := 5

  /** The order in which a tick compares rows: timestamp, then kind, then source id. */
  predicate RowLe(a: Row, b: Row) {
    At(a) < At(b) || (At(a) == At(b) && (Kind(a) < Kind(b) || (Kind(a) == Kind(b) && SrcID(a) <= SrcID(b))))
  }

  lemma RowLeTotal()
    ensures TotalPreorder(RowLe)
  {
  }

  // Tables are indexed by the kind of their rows. On a controller without fsm_step_runs table 2 is empty.

  ghost predicate ValidTable(t: seq<Row>, k: nat) {
    && (forall i | 0 <= i < |t| :: Kind(t[i]) == k && SrcID(t[i]) > 0)
    && (forall i, j | 0 <= i < j < |t| :: SrcID(t[i]) < SrcID(t[j]))
    && (forall i, j | 0 <= i < j < |t| :: At(t[i]) <= At(t[j]))
  }

  ghost predicate ValidTables(ts: seq<seq<Row>>) {
    |ts| == TABLES && forall k | 0 <= k < TABLES :: ValidTable(ts[k], k)
  }

  predicate ValidPos(ts: seq<seq<Row>>, pos: seq<nat>) {
    |ts| == TABLES && |pos| == TABLES && forall k | 0 <= k < TABLES :: pos[k] <= |ts[k]|
  }

  const START: seq<nat> := [0, 0, 0, 0, 0]

  /** One bounded read: the first `batch` rows from position p on. */
  function Page(t: seq<Row>, p: nat, batch: nat): seq<Row>
    requires p <= |t|
  {
    if p + batch <= |t| then t[p..p + batch] else t[p..]
  }

  /** A page that filled its batch lowers the horizon to its last timestamp. */
  function NoteFull(safe: Option<int>, page: seq<Row>, batch: nat): Option<int> {
    if 0 < |page| && batch <= |page| && (safe.None? || At(page[|page| - 1]) < safe.value)
    then Some(At(page[|page| - 1]))
    else safe
  }

  // Orders, events, faults, toggles and then step runs.
  function ReadTable(i: nat): (k: nat)
    requires i < TABLES
    ensures k < TABLES && ReadIndex(k) == i
  {
    if i < 2 then i else if i == 2 then 3 else if i == 3 then 4 else 2
  }

  function ReadIndex(k: nat): nat
    requires k < TABLES
  {
    if k < 2 then k else if k == 2 then 4 else k - 1
  }

  /** The pages of the first n reads, one after the other. */
  function Collected(ts: seq<seq<Row>>, pos: seq<nat>, batch: nat, n: nat := TABLES): seq<Row>
    requires ValidPos(ts, pos) && n <= TABLES
  {
    if n == 0 then []
    else
      var k := ReadTable(n - 1);
      Collected(ts, pos, batch, n - 1) + Page(ts[k], pos[k], batch)
  }

  /** The horizon after the first n reads; None while no page was full. */
  function SafeUpTo(ts: seq<seq<Row>>, pos: seq<nat>, batch: nat, n: nat := TABLES): Option<int>
    requires ValidPos(ts, pos) && n <= TABLES
  {
    if n == 0 then None
    else
      var k := ReadTable(n - 1);
      NoteFull(SafeUpTo(ts, pos, batch, n - 1), Page(ts[k], pos[k], batch), batch)
  }

  /** Whether the tick stops before a row at this instant. */
  predicate Beyond(safe: Option<int>, at: int) {
    safe.Some? && safe.value < at
  }

  function TakeSafe(items: seq<Row>, safe: Option<int>): seq<Row> {
    if items == [] || Beyond(safe, At(items[0])) then []
    else [items[0]] + TakeSafe(items[1..], safe)
  }

  /** The rows one tick applies, in the order it applies them. */
  function Applied(ts: seq<seq<Row>>, pos: seq<nat>, batch: nat): seq<Row>
    requires ValidPos(ts, pos)
  {
    TakeSafe(SortBy(RowLe, Collected(ts, pos, batch)), SafeUpTo(ts, pos, batch))
  }

  function OfKind(k: nat): Row -> bool {
    r => Kind(r) == k
  }

  /** The positions after a tick. */
  function Advance(pos: seq<nat>, applied: seq<Row>): (next: seq<nat>)
    requires |pos| == TABLES
    ensures |next| == TABLES
  {
    seq(TABLES, k requires 0 <= k < TABLES => pos[k] + |Filter(OfKind(k), applied)|)
  }

  function Left(ts: seq<seq<Row>>, pos: seq<nat>): nat
    requires ValidPos(ts, pos)
  {
    (|ts[0]| - pos[0]) + (|ts[1]| - pos[1]) + (|ts[2]| - pos[2]) + (|ts[3]| - pos[3]) + (|ts[4]| - pos[4])
  }

  // ---------------------------------------------------------------------------
  // One tick
  // ---------------------------------------------------------------------------

  lemma {:induction false} TakeSafeIsPrefix(items: seq<Row>, safe: Option<int>)
    ensures TakeSafe(items, safe) <= items
    ensures forall r | r in TakeSafe(items, safe) :: !Beyond(safe, At(r))
    ensures var n := |TakeSafe(items, safe)|; n == |items| || Beyond(safe, At(items[n]))
  {
    if items != [] && !Beyond(safe, At(items[0])) {
      TakeSafeIsPrefix(items[1..], safe);
      assert items == [items[0]] + items[1..];
    }
  }

  lemma {:induction false} CollectedByKind(ts: seq<seq<Row>>, pos: seq<nat>, batch: nat, k: nat, n: nat)
    requires ValidTables(ts) && ValidPos(ts, pos) && k < TABLES && n <= TABLES
    ensures Filter(OfKind(k), Collected(ts, pos, batch, n))
         == if ReadIndex(k) < n then Page(ts[k], pos[k], batch) else []
  {
    hide Page, Filter, OfKind;
    if n == 0 {
      FilterNone(OfKind(k), []);
    } else {
      var j := ReadTable(n - 1);
      CollectedByKind(ts, pos, batch, k, n - 1);
      FilterAppend(OfKind(k), Collected(ts, pos, batch, n - 1), Page(ts[j], pos[j], batch));
      PageByKind(ts, pos, batch, j, k);
      ReadOnce(n - 1, k);
    }
  }

  lemma ReadOnce(i: nat, k: nat)
    requires i < TABLES && k < TABLES
    ensures ReadTable(i) == k <==> ReadIndex(k) == i
  {
  }

  lemma PageByKind(ts: seq<seq<Row>>, pos: seq<nat>, batch: nat, j: nat, k: nat)
    requires ValidTables(ts) && ValidPos(ts, pos) && j < TABLES
    ensures Filter(OfKind(k), Page(ts[j], pos[j], batch)) == if j == k then Page(ts[j], pos[j], batch) else []
  {
    var page := Page(ts[j], pos[j], batch);
    assert forall i | 0 <= i < |page| :: page[i] == ts[j][pos[j] + i];
    if j == k {
      FilterAll(OfKind(k), page);
    } else {
      FilterNone(OfKind(k), page);
    }
  }

  lemma PageSorted(t: seq<Row>, p: nat, batch: nat, k: nat)
    requires ValidTable(t, k) && p <= |t|
    ensures SortedBy(RowLe, Page(t, p, batch))
    ensures forall x, y | x in Page(t, p, batch) && y in Page(t, p, batch) && RowLe(x, y) && RowLe(y, x) :: x == y
  {
    var page := Page(t, p, batch);
    assert forall i | 0 <= i < |page| :: page[i] == t[p + i];
  }

  /** Sorting the union leaves the rows of each table in their table's order. */
  lemma SortedByKind(ts: seq<seq<Row>>, pos: seq<nat>, batch: nat, k: nat)
    requires ValidTables(ts) && ValidPos(ts, pos) && k < TABLES
    ensures Filter(OfKind(k), SortBy(RowLe, Collected(ts, pos, batch))) == Page(ts[k], pos[k], batch)
  {
    hide SortBy, Collected, Page, Filter, RowLe, OfKind;
    var items := Collected(ts, pos, batch);
    RowLeTotal();
    SortBySorts(RowLe, items);
    FilterMultiset(OfKind(k), SortBy(RowLe, items), items);
    CollectedByKind(ts, pos, batch, k, TABLES);
    FilterSorted(RowLe, OfKind(k), SortBy(RowLe, items));
    PageSorted(ts[k], pos[k], batch, k);
    SortedUnique(RowLe, Page(ts[k], pos[k], batch), Filter(OfKind(k), SortBy(RowLe, items)));
  }

  lemma {:induction false} FilterPrefix(p: Row -> bool, a: seq<Row>, s: seq<Row>)
    requires a <= s
    ensures Filter(p, a) <= Filter(p, s)
    decreases |s|
  {
    if a != s {
      var n := |s| - 1;
      FilterPrefix(p, a, s[..n]);
    }
  }

  /** What a tick applies of one table is the next stretch of that table. */
  lemma TickTakesNextRows(ts: seq<seq<Row>>, pos: seq<nat>, batch: nat, k: nat)
    requires ValidTables(ts) && ValidPos(ts, pos) && k < TABLES
    ensures var got := Filter(OfKind(k), Applied(ts, pos, batch));
            && got <= Page(ts[k], pos[k], batch)
            && pos[k] + |got| <= |ts[k]|
            && got == ts[k][pos[k]..pos[k] + |got|]
  {
    hide SortBy, Collected, SafeUpTo, TakeSafe, Filter;
    var sorted := SortBy(RowLe, Collected(ts, pos, batch));
    var applied := Applied(ts, pos, batch);
    TakeSafeIsPrefix(sorted, SafeUpTo(ts, pos, batch));
    assert applied == sorted[..|applied|];
    FilterPrefix(OfKind(k), applied, sorted);
    SortedByKind(ts, pos, batch, k);
    var got := Filter(OfKind(k), applied);
    assert got == Page(ts[k], pos[k], batch)[..|got|];
  }

  lemma {:induction false} TakeSafeMembers(items: seq<Row>, safe: Option<int>, r: Row)
    requires SortedBy(RowLe, items)
    ensures r in TakeSafe(items, safe) <==> r in items && !Beyond(safe, At(r))
  {
    if items != [] {
      assert items == [items[0]] + items[1..];
      if Beyond(safe, At(items[0])) {
        assert forall i | 0 <= i < |items| :: i == 0 || RowLe(items[0], items[i]);
      } else {
        TakeSafeMembers(items[1..], safe, r);
      }
    }
  }

  /** A row is applied exactly when its page holds it and it does not lie beyond the horizon. */
  lemma AppliedMembers(ts: seq<seq<Row>>, pos: seq<nat>, batch: nat, k: nat, r: Row)
    requires ValidTables(ts) && ValidPos(ts, pos) && k < TABLES && Kind(r) == k
    ensures r in Applied(ts, pos, batch)
       <==> r in Page(ts[k], pos[k], batch) && !Beyond(SafeUpTo(ts, pos, batch), At(r))
  {
    hide SortBy, Collected, SafeUpTo, TakeSafe, Filter, Page, RowLe, Beyond;
    var sorted := SortBy(RowLe, Collected(ts, pos, batch));
    SortedByKind(ts, pos, batch, k);
    FilterMembers(OfKind(k), sorted);
    assert SortedBy(RowLe, sorted) by {
      RowLeTotal();
      SortBySorts(RowLe, Collected(ts, pos, batch));
    }
    TakeSafeMembers(sorted, SafeUpTo(ts, pos, batch), r);
  }

  /** The horizon is the earliest last timestamp among the full pages. */
  lemma {:induction false} HorizonIsEarliest(ts: seq<seq<Row>>, pos: seq<nat>, batch: nat, n: nat)
    requires ValidPos(ts, pos) && n <= TABLES && batch > 0
    ensures var safe := SafeUpTo(ts, pos, batch, n);
            && (forall k | 0 <= k < TABLES && ReadIndex(k) < n && batch <= |Page(ts[k], pos[k], batch)| ::
                  safe.Some? && safe.value <= At(Page(ts[k], pos[k], batch)[batch - 1]))
            && (safe.Some? ==> exists k | 0 <= k < TABLES ::
                  batch <= |Page(ts[k], pos[k], batch)| && safe.value == At(Page(ts[k], pos[k], batch)[batch - 1]))
  {
    hide Page, At;
    if n != 0 {
      HorizonIsEarliest(ts, pos, batch, n - 1);
      var j := ReadTable(n - 1);
      assert forall k | 0 <= k < TABLES :: ReadIndex(k) == n - 1 <==> k == j;
      PageFits(ts[j], pos[j], batch);
    }
  }

  lemma PageFits(t: seq<Row>, p: nat, batch: nat)
    requires p <= |t|
    ensures |Page(t, p, batch)| <= batch
  {
  }

  function NextPos(ts: seq<seq<Row>>, pos: seq<nat>, batch: nat): (next: seq<nat>)
    requires ValidPos(ts, pos)
    ensures |next| == TABLES
  {
    Advance(pos, Applied(ts, pos, batch))
  }

  lemma NextPosValid(ts: seq<seq<Row>>, pos: seq<nat>, batch: nat)
    requires ValidTables(ts) && ValidPos(ts, pos)
    ensures ValidPos(ts, NextPos(ts, pos, batch))
    ensures forall k | 0 <= k < TABLES :: pos[k] <= NextPos(ts, pos, batch)[k]
  {
    hide Applied, Filter, Page;
    forall k | 0 <= k < TABLES ensures NextPos(ts, pos, batch)[k] <= |ts[k]| {
      TickTakesNextRows(ts, pos, batch, k);
    }
  }

  /** Row i of table k is applied by the tick exactly when the tick moves the position past it. */
  lemma TickTakes(ts: seq<seq<Row>>, pos: seq<nat>, batch: nat, k: nat, i: nat)
    requires ValidTables(ts) && ValidPos(ts, pos) && k < TABLES && pos[k] <= i < |ts[k]|
    ensures ts[k][i] in Applied(ts, pos, batch) <==> i < NextPos(ts, pos, batch)[k]
  {
    hide Applied, Filter, Page, At;
    var r := ts[k][i];
    var applied := Applied(ts, pos, batch);
    TickTakesNextRows(ts, pos, batch, k);
    FilterMembers(OfKind(k), applied);
    var got := ts[k][pos[k]..NextPos(ts, pos, batch)[k]];
    assert got == Filter(OfKind(k), applied);
    if i < NextPos(ts, pos, batch)[k] {
      assert got[i - pos[k]] == r;
    }
  }

  /** What a tick leaves behind is not earlier than what it applies; a tie is between rows of which
      the later one sits behind a full page that ends at the same instant. */
  lemma TickKeepsOrder(ts: seq<seq<Row>>, pos: seq<nat>, batch: nat, x: Row, k: nat, i: nat)
    requires ValidTables(ts) && ValidPos(ts, pos) && batch > 0 && k < TABLES
    requires x in Applied(ts, pos, batch)
    requires NextPos(ts, pos, batch)[k] <= i < |ts[k]|
    ensures At(x) <= At(ts[k][i])
    ensures At(x) == At(ts[k][i]) ==> pos[k] + batch - 1 < i && At(ts[k][pos[k] + batch - 1]) == At(x)
  {
    hide Applied, NextPos, SafeUpTo;
    var y := ts[k][i];
    var page := Page(ts[k], pos[k], batch);
    var safe := SafeUpTo(ts, pos, batch);
    AppliedMembers(ts, pos, batch, Kind(x), x);
    NextPosValid(ts, pos, batch);
    HorizonIsEarliest(ts, pos, batch, TABLES);
    if i < pos[k] + |page| {
      assert page[i - pos[k]] == y;
      AppliedMembers(ts, pos, batch, k, y);
      TickTakes(ts, pos, batch, k, i);
    } else {
      assert |page| == batch && page[batch - 1] == ts[k][pos[k] + batch - 1];
      assert ReadIndex(k) < TABLES;
    }
  }

  /** A page without a row beyond the horizon is applied whole. */
  lemma WholePage(ts: seq<seq<Row>>, pos: seq<nat>, batch: nat, k: nat)
    requires ValidTables(ts) && ValidPos(ts, pos) && k < TABLES
    requires forall r | r in Page(ts[k], pos[k], batch) :: !Beyond(SafeUpTo(ts, pos, batch), At(r))
    ensures NextPos(ts, pos, batch)[k] == pos[k] + |Page(ts[k], pos[k], batch)|
  {
    hide Applied, Filter, SafeUpTo;
    var page := Page(ts[k], pos[k], batch);
    var next := NextPos(ts, pos, batch)[k];
    NextPosValid(ts, pos, batch);
    assert next <= pos[k] + |page| by {
      TickTakesNextRows(ts, pos, batch, k);
    }
    if next < pos[k] + |page| {
      assert page[next - pos[k]] == ts[k][next];
      AppliedMembers(ts, pos, batch, k, ts[k][next]);
      TickTakes(ts, pos, batch, k, next);
    }
  }

  /** Each tick applies everything that is left or at least one whole page. */
  lemma TickProgress(ts: seq<seq<Row>>, pos: seq<nat>, batch: nat)
    requires ValidTables(ts) && ValidPos(ts, pos) && batch > 0
    ensures var next := NextPos(ts, pos, batch);
            || (forall k | 0 <= k < TABLES :: next[k] == |ts[k]|)
            || (exists k | 0 <= k < TABLES :: pos[k] + batch <= next[k])
  {
    hide NextPos, SafeUpTo;
    var safe := SafeUpTo(ts, pos, batch);
    HorizonIsEarliest(ts, pos, batch, TABLES);
    if safe.None? {
      forall k | 0 <= k < TABLES ensures NextPos(ts, pos, batch)[k] == |ts[k]| {
        assert ReadIndex(k) < TABLES;
        WholePage(ts, pos, batch, k);
      }
    } else {
      var k :| 0 <= k < TABLES && batch <= |Page(ts[k], pos[k], batch)|
               && safe.value == At(Page(ts[k], pos[k], batch)[batch - 1]);
      LastIsLatest(ts[k], pos[k], batch, k);
      WholePage(ts, pos, batch, k);
    }
  }

  lemma LastIsLatest(t: seq<Row>, p: nat, batch: nat, k: nat)
    requires ValidTable(t, k) && p <= |t| && 0 < batch <= |Page(t, p, batch)|
    ensures forall r | r in Page(t, p, batch) :: At(r) <= At(Page(t, p, batch)[batch - 1])
  {
    var page := Page(t, p, batch);
    assert forall i | 0 <= i < |page| :: page[i] == t[p + i];
  }

  /** The place of a row among those that share a timestamp: an order opens its interval first, then come its events,
      then step runs, faults and toggles. */
  predicate ComesFirst(a: Row, b: Row) {
    match b
    case OrderRow(_) => a.OrderRow?
    case EventRow(_) => a.OrderRow? || a.EventRow?
    case StepRunRow(_) => !a.FaultRow? && !a.ToggleRow?
    case FaultRow(_) => !a.ToggleRow?
    case ToggleRow(_) => true
  }

  /** Within a tick rows come in the order of their timestamps, those of one instant by kind and then by id. */
  lemma TickBreaksTies(ts: seq<seq<Row>>, pos: seq<nat>, batch: nat, j: nat, k: nat)
    requires ValidTables(ts) && ValidPos(ts, pos) && j < k < |Applied(ts, pos, batch)|
    ensures var a, b := Applied(ts, pos, batch)[j], Applied(ts, pos, batch)[k];
            && At(a) <= At(b)
            && (At(a) == At(b) ==> ComesFirst(a, b) && (ComesFirst(b, a) ==> SrcID(a) <= SrcID(b)))
  {
    hide SortBy, Collected, SafeUpTo, TakeSafe;
    var sorted := SortBy(RowLe, Collected(ts, pos, batch));
    RowLeTotal();
    SortBySorts(RowLe, Collected(ts, pos, batch));
    TakeSafeIsPrefix(sorted, SafeUpTo(ts, pos, batch));
    assert RowLe(sorted[j], sorted[k]);
  }
}
