/** Draining a fixed source tick by tick: nothing lost, nothing twice, no step back in time,
    and the exact condition under which the batch size does not matter. */
module Drain {
  import opened Source
  import opened Sorting
  import opened Merge

  /** A tick leaves nothing, or `batch` rows less than before. */
  lemma TickShrinks(ts: seq<seq<Row>>, pos: seq<nat>, batch: nat)
    requires ValidTables(ts) && ValidPos(ts, pos) && batch > 0
    ensures var next := NextPos(ts, pos, batch);
            && ValidPos(ts, next)
            && (Left(ts, next) == 0 || Left(ts, next) + batch <= Left(ts, pos))
  {
    hide NextPos;
    NextPosValid(ts, pos, batch);
    TickProgress(ts, pos, batch);
  }

  /** Everything the ticks from these positions on apply, in order. */
  ghost function Drained(ts: seq<seq<Row>>, pos: seq<nat>, batch: nat): seq<Row>
    requires ValidTables(ts) && ValidPos(ts, pos) && batch > 0
    decreases Left(ts, pos)
  {
    if Left(ts, pos) == 0 then []
    else
      TickShrinks(ts, pos, batch);
      Applied(ts, pos, batch) + Drained(ts, NextPos(ts, pos, batch), batch)
  }

  ghost function Ticks(ts: seq<seq<Row>>, pos: seq<nat>, batch: nat): nat
    requires ValidTables(ts) && ValidPos(ts, pos) && batch > 0
    decreases Left(ts, pos)
  {
    if Left(ts, pos) == 0 then 0
    else
      TickShrinks(ts, pos, batch);
      1 + Ticks(ts, NextPos(ts, pos, batch), batch)
  }

  /** All but the last of the ticks apply at least `batch` rows each. */
  lemma {:induction false} TicksBounded(ts: seq<seq<Row>>, pos: seq<nat>, batch: nat)
    requires ValidTables(ts) && ValidPos(ts, pos) && batch > 0
    ensures Ticks(ts, pos, batch) <= Left(ts, pos) / batch + 1
    ensures Left(ts, pos) == 0 ==> Ticks(ts, pos, batch) == 0
    decreases Left(ts, pos)
  {
    hide NextPos, Applied;
    if Left(ts, pos) != 0 {
      var next := NextPos(ts, pos, batch);
      TickShrinks(ts, pos, batch);
      var before, after := Left(ts, pos), Left(ts, next);
      assert Ticks(ts, pos, batch) == 1 + Ticks(ts, next, batch);
      TicksBounded(ts, next, batch);
      OneTickMore(before, after, batch, Ticks(ts, next, batch));
    }
  }

  lemma OneTickMore(before: nat, after: nat, batch: nat, ticks: nat)
    requires batch > 0 && (after == 0 || after + batch <= before)
    requires ticks <= after / batch + 1 && (after == 0 ==> ticks == 0)
    ensures 1 + ticks <= before / batch + 1
  {
    if after != 0 {
      QuotientDrops(after, before, batch);
    }
  }

  lemma QuotientDrops(a: nat, b: nat, d: nat)
    requires d > 0 && a + d <= b
    ensures a / d + 1 <= b / d
  {
    var q, r := a / d, b / d;
    assert (q + 1) * d == q * d + d <= b < (r + 1) * d;
  }

  /** Every row of every table is applied exactly once, and each table in id order. */
  lemma {:induction false} EachTableOnceInOrder(ts: seq<seq<Row>>, pos: seq<nat>, batch: nat, k: nat)
    requires ValidTables(ts) && ValidPos(ts, pos) && batch > 0 && k < TABLES
    ensures Filter(OfKind(k), Drained(ts, pos, batch)) == ts[k][pos[k]..]
    decreases Left(ts, pos)
  {
    if Left(ts, pos) != 0 {
      TickShrinks(ts, pos, batch);
      EachTableOnceInOrder(ts, NextPos(ts, pos, batch), batch, k);
      TableStep(ts, pos, batch, k, Drained(ts, NextPos(ts, pos, batch), batch));
    }
  }

  lemma TableStep(ts: seq<seq<Row>>, pos: seq<nat>, batch: nat, k: nat, later: seq<Row>)
    requires ValidTables(ts) && ValidPos(ts, pos) && k < TABLES
    requires ValidPos(ts, NextPos(ts, pos, batch))
    requires Filter(OfKind(k), later) == ts[k][NextPos(ts, pos, batch)[k]..]
    ensures Filter(OfKind(k), Applied(ts, pos, batch) + later) == ts[k][pos[k]..]
  {
    hide Applied, Filter, Page, OfKind;
    var got := Filter(OfKind(k), Applied(ts, pos, batch));
    TickTakesNextRows(ts, pos, batch, k);
    FilterAppend(OfKind(k), Applied(ts, pos, batch), later);
    assert ts[k][pos[k]..] == got + ts[k][pos[k] + |got|..];
  }

  lemma DrainedMembers(ts: seq<seq<Row>>, pos: seq<nat>, batch: nat, r: Row)
    requires ValidTables(ts) && ValidPos(ts, pos) && batch > 0
    ensures Kind(r) < TABLES
    ensures r in Drained(ts, pos, batch) <==> r in ts[Kind(r)][pos[Kind(r)]..]
  {
    hide Drained, Filter;
    EachTableOnceInOrder(ts, pos, batch, Kind(r));
    FilterMembers(OfKind(Kind(r)), Drained(ts, pos, batch));
  }

  lemma Unsorted(s: seq<Row>, t: seq<Row>, p: nat, q: nat)
    requires p < |s| && q < |t| && !RowLe(s[p], t[q])
    ensures !SortedBy(RowLe, s + t)
  {
    assert !RowLe((s + t)[p], (s + t)[|s| + q]);
  }

  lemma UnsortedSuffix(s: seq<Row>, t: seq<Row>)
    requires !SortedBy(RowLe, t)
    ensures !SortedBy(RowLe, s + t)
  {
    var p, q :| 0 <= p < q < |t| && !RowLe(t[p], t[q]);
    assert !RowLe((s + t)[|s| + p], (s + t)[|s| + q]);
  }

  lemma RowIndex(ts: seq<seq<Row>>, pos: seq<nat>, k: nat, r: Row) returns (i: nat)
    requires ValidPos(ts, pos) && k < TABLES && r in ts[k][pos[k]..]
    ensures pos[k] <= i < |ts[k]| && ts[k][i] == r
  {
    var rest := ts[k][pos[k]..];
    var j :| 0 <= j < |rest| && rest[j] == r;
    i := pos[k] + j;
  }

  lemma AppliedSorted(ts: seq<seq<Row>>, pos: seq<nat>, batch: nat)
    requires ValidPos(ts, pos)
    ensures SortedBy(RowLe, Applied(ts, pos, batch))
  {
    hide Collected, SafeUpTo, SortBy, TakeSafe, RowLe;
    RowLeTotal();
    SortBySorts(RowLe, Collected(ts, pos, batch));
    TakeSafeIsPrefix(SortBy(RowLe, Collected(ts, pos, batch)), SafeUpTo(ts, pos, batch));
  }

  /** Timestamps never step back, within a tick or from one tick to the next. */
  lemma {:induction false} NeverStepsBack(ts: seq<seq<Row>>, pos: seq<nat>, batch: nat)
    requires ValidTables(ts) && ValidPos(ts, pos) && batch > 0
    ensures forall i, j | 0 <= i < j < |Drained(ts, pos, batch)| ::
              At(Drained(ts, pos, batch)[i]) <= At(Drained(ts, pos, batch)[j])
    decreases Left(ts, pos)
  {
    hide Applied, NextPos;
    if Left(ts, pos) != 0 {
      var next := NextPos(ts, pos, batch);
      TickShrinks(ts, pos, batch);
      NeverStepsBack(ts, next, batch);
      AppliedSorted(ts, pos, batch);
      var now, later := Applied(ts, pos, batch), Drained(ts, next, batch);
      forall i, j | 0 <= i < |now| && 0 <= j < |later| ensures At(now[i]) <= At(later[j]) {
        var y := later[j];
        DrainedMembers(ts, next, batch, y);
        var n := RowIndex(ts, next, Kind(y), y);
        TickKeepsOrder(ts, pos, batch, now[i], Kind(y), n);
      }
    }
  }

  // ---------------------------------------------------------------------------
  // Batch size independence
  // ---------------------------------------------------------------------------

  ghost predicate TieAt(ts: seq<seq<Row>>, k: nat, a: nat, j: nat, b: nat)
    requires |ts| == TABLES
  {
    && k < j < TABLES && a + 1 < |ts[k]| && b < |ts[j]|
    && At(ts[k][a]) == At(ts[k][a + 1]) == At(ts[j][b])
  }

  /** Only the table of highest kind at an instant may hold more than one row of that instant. */
  ghost predicate TiesAreHarmless(ts: seq<seq<Row>>)
    requires |ts| == TABLES
  {
    forall k, a, j, b :: !TieAt(ts, k, a, j, b)
  }

  /** The rows of the first n tables in one sequence. */
  function AllRows(ts: seq<seq<Row>>, n: nat := TABLES): seq<Row>
    requires |ts| == TABLES && n <= TABLES
  {
    if n == 0 then [] else AllRows(ts, n - 1) + ts[n - 1]
  }

  /** Sorting all rows at once. */
  function SortedOnce(ts: seq<seq<Row>>): seq<Row>
    requires |ts| == TABLES
  {
    SortBy(RowLe, AllRows(ts))
  }

  lemma {:induction false} DrainedSorted(ts: seq<seq<Row>>, pos: seq<nat>, batch: nat)
    requires ValidTables(ts) && ValidPos(ts, pos) && batch > 0 && TiesAreHarmless(ts)
    ensures SortedBy(RowLe, Drained(ts, pos, batch))
    decreases Left(ts, pos)
  {
    hide Applied, NextPos, RowLe;
    if Left(ts, pos) != 0 {
      var next := NextPos(ts, pos, batch);
      TickShrinks(ts, pos, batch);
      DrainedSorted(ts, next, batch);
      AppliedSorted(ts, pos, batch);
      var now, later := Applied(ts, pos, batch), Drained(ts, next, batch);
      forall i, j | 0 <= i < |now| && 0 <= j < |later| ensures RowLe(now[i], later[j]) {
        var y := later[j];
        DrainedMembers(ts, next, batch, y);
        var n := RowIndex(ts, next, Kind(y), y);
        HarmlessAcrossTicks(ts, pos, batch, now[i], Kind(y), n);
      }
    }
  }

  lemma HarmlessAcrossTicks(ts: seq<seq<Row>>, pos: seq<nat>, batch: nat, x: Row, k: nat, i: nat)
    requires ValidTables(ts) && ValidPos(ts, pos) && batch > 0 && TiesAreHarmless(ts)
    requires x in Applied(ts, pos, batch) && k < TABLES && NextPos(ts, pos, batch)[k] <= i < |ts[k]|
    ensures RowLe(x, ts[k][i])
  {
    hide Applied, NextPos, Page;
    TickKeepsOrder(ts, pos, batch, x, k, i);
    if At(x) == At(ts[k][i]) && k <= Kind(x) {
      var b := AppliedIndex(ts, pos, batch, x);
      if k < Kind(x) {
        Squeezed(ts[k], k, pos[k] + batch - 1, i);
        NoTie(ts, k, i - 1, Kind(x), b);
      }
    }
  }

  lemma NoTie(ts: seq<seq<Row>>, k: nat, a: nat, j: nat, b: nat)
    requires |ts| == TABLES && TiesAreHarmless(ts)
    requires k < j < TABLES && a + 1 < |ts[k]| && b < |ts[j]| && At(ts[k][a]) == At(ts[k][a + 1])
    ensures At(ts[k][a]) != At(ts[j][b])
  {
    assert !TieAt(ts, k, a, j, b);
  }

  lemma AppliedIndex(ts: seq<seq<Row>>, pos: seq<nat>, batch: nat, x: Row) returns (b: nat)
    requires ValidTables(ts) && ValidPos(ts, pos) && x in Applied(ts, pos, batch)
    ensures Kind(x) < TABLES && b < |ts[Kind(x)]| && ts[Kind(x)][b] == x && b < NextPos(ts, pos, batch)[Kind(x)]
  {
    hide Applied, NextPos, SafeUpTo, Beyond;
    var j := Kind(x);
    AppliedMembers(ts, pos, batch, j, x);
    b := RowIndex(ts, pos, j, x);
    TickTakes(ts, pos, batch, j, b);
  }

  lemma Squeezed(t: seq<Row>, k: nat, m: nat, i: nat)
    requires ValidTable(t, k) && m < i < |t| && At(t[m]) == At(t[i])
    ensures At(t[i - 1]) == At(t[i])
  {
  }

  /** A harmful tie is already torn apart by single-row pages. */
  lemma {:induction false} HarmfulTieReorders(ts: seq<seq<Row>>, pos: seq<nat>, k: nat, a: nat, j: nat, b: nat)
    requires ValidTables(ts) && ValidPos(ts, pos) && TieAt(ts, k, a, j, b)
    requires pos[k] <= a && pos[j] <= b
    ensures !SortedBy(RowLe, Drained(ts, pos, 1))
    decreases Left(ts, pos)
  {
    hide Applied, NextPos, RowLe;
    var next := NextPos(ts, pos, 1);
    TickShrinks(ts, pos, 1);
    assert Drained(ts, pos, 1) == Applied(ts, pos, 1) + Drained(ts, next, 1);
    if next[k] <= a && next[j] <= b {
      HarmfulTieReorders(ts, next, k, a, j, b);
      UnsortedSuffix(Applied(ts, pos, 1), Drained(ts, next, 1));
    } else {
      TornByThisTick(ts, pos, k, a, j, b);
    }
  }

  lemma TornByThisTick(ts: seq<seq<Row>>, pos: seq<nat>, k: nat, a: nat, j: nat, b: nat)
    requires ValidTables(ts) && ValidPos(ts, pos) && TieAt(ts, k, a, j, b)
    requires pos[k] <= a && pos[j] <= b
    requires a < NextPos(ts, pos, 1)[k] || b < NextPos(ts, pos, 1)[j]
    ensures !SortedBy(RowLe, Drained(ts, pos, 1))
  {
    hide Applied, NextPos, Drained;
    if b < NextPos(ts, pos, 1)[j] {
      TornBy(ts, pos, k, a, j, b);
    } else {
      HeadGoesToo(ts, pos, k, a, j, b);
      TornBy(ts, pos, k, a, j, pos[j]);
    }
  }

  lemma TornBy(ts: seq<seq<Row>>, pos: seq<nat>, k: nat, a: nat, j: nat, c: nat)
    requires ValidTables(ts) && ValidPos(ts, pos) && TieAt(ts, k, a, j, c)
    requires pos[k] <= a && pos[j] <= c < NextPos(ts, pos, 1)[j]
    ensures !SortedBy(RowLe, Drained(ts, pos, 1))
  {
    hide Applied, NextPos, Drained, At;
    NextPosValid(ts, pos, 1);
    SinglePage(ts, pos, k);
    TickTakes(ts, pos, 1, j, c);
    SplitTieReorders(ts, pos, k, a + 1, j, c);
  }

  lemma SinglePage(ts: seq<seq<Row>>, pos: seq<nat>, k: nat)
    requires ValidTables(ts) && ValidPos(ts, pos) && k < TABLES
    ensures NextPos(ts, pos, 1)[k] <= pos[k] + 1
  {
    hide Applied, Filter;
    TickTakesNextRows(ts, pos, 1, k);
  }

  /** With single-row pages the tick that takes the tie's row takes the other table's head as well. */
  lemma HeadGoesToo(ts: seq<seq<Row>>, pos: seq<nat>, k: nat, a: nat, j: nat, b: nat)
    requires ValidTables(ts) && ValidPos(ts, pos) && TieAt(ts, k, a, j, b)
    requires pos[k] <= a < NextPos(ts, pos, 1)[k] && pos[j] <= b
    ensures pos[j] < NextPos(ts, pos, 1)[j] && At(ts[j][pos[j]]) == At(ts[j][b])
  {
    hide Applied, NextPos;
    var head := ts[j][pos[j]];
    assert Page(ts[j], pos[j], 1) == [head];
    TickTakes(ts, pos, 1, k, a);
    AppliedMembers(ts, pos, 1, k, ts[k][a]);
    HorizonIsEarliest(ts, pos, 1, TABLES);
    assert ReadIndex(j) < TABLES;
    AppliedMembers(ts, pos, 1, j, head);
    TickTakes(ts, pos, 1, j, pos[j]);
  }

  lemma SplitTieReorders(ts: seq<seq<Row>>, pos: seq<nat>, k: nat, i: nat, j: nat, c: nat)
    requires ValidTables(ts) && ValidPos(ts, pos) && Left(ts, pos) != 0 && k < j < TABLES
    requires c < |ts[j]| && ts[j][c] in Applied(ts, pos, 1)
    requires ValidPos(ts, NextPos(ts, pos, 1)) && NextPos(ts, pos, 1)[k] <= i < |ts[k]|
    requires At(ts[k][i]) == At(ts[j][c])
    ensures !SortedBy(RowLe, Drained(ts, pos, 1))
  {
    hide Applied, NextPos;
    var next := NextPos(ts, pos, 1);
    var now, later := Applied(ts, pos, 1), Drained(ts, next, 1);
    var y := ts[k][i];
    DrainedMembers(ts, next, 1, y);
    assert ts[k][next[k]..][i - next[k]] == y;
    var p :| 0 <= p < |now| && now[p] == ts[j][c];
    var q :| 0 <= q < |later| && later[q] == y;
    Unsorted(now, later, p, q);
  }

  lemma DrainedIsPermutation(ts: seq<seq<Row>>, batch: nat)
    requires ValidTables(ts) && batch > 0
    ensures multiset(Drained(ts, START, batch)) == multiset(AllRows(ts))
  {
    hide Drained, AllRows, Filter;
    var d, all := Drained(ts, START, batch), AllRows(ts);
    forall r ensures multiset(d)[r] == multiset(all)[r] {
      var k := Kind(r);
      EachTableOnceInOrder(ts, START, batch, k);
      AllRowsByKind(ts, k, TABLES);
      FilterCount(OfKind(k), d, r);
      FilterCount(OfKind(k), all, r);
    }
    assert multiset(d) == multiset(all);
  }

  lemma RowsDistinct(ts: seq<seq<Row>>, x: Row, y: Row)
    requires ValidTables(ts) && x in AllRows(ts) && y in AllRows(ts) && RowLe(x, y) && RowLe(y, x)
    ensures x == y
  {
    hide AllRows, Filter;
    var k := Kind(x);
    AllRowsByKind(ts, k, TABLES);
    FilterMembers(OfKind(k), AllRows(ts));
    var i :| 0 <= i < |ts[k]| && ts[k][i] == x;
    var j :| 0 <= j < |ts[k]| && ts[k][j] == y;
  }

  lemma TableByKind(t: seq<Row>, j: nat, k: nat)
    requires ValidTable(t, j)
    ensures Filter(OfKind(k), t) == if j == k then t else []
  {
    if j == k {
      FilterAll(OfKind(k), t);
    } else {
      FilterNone(OfKind(k), t);
    }
  }

  lemma {:induction false} AllRowsByKind(ts: seq<seq<Row>>, k: nat, n: nat)
    requires ValidTables(ts) && k < TABLES && n <= TABLES
    ensures Filter(OfKind(k), AllRows(ts, n)) == if k < n then ts[k] else []
  {
    hide Filter, OfKind, ValidTable;
    if n == 0 {
      FilterNone(OfKind(k), []);
    } else {
      AllRowsByKind(ts, k, n - 1);
      OneMoreTable(AllRows(ts, n - 1), ts[n - 1], n - 1, k);
    }
  }

  lemma OneMoreTable(s: seq<Row>, t: seq<Row>, j: nat, k: nat)
    requires ValidTable(t, j)
    requires Filter(OfKind(k), s) == [] || j != k
    ensures Filter(OfKind(k), s + t) == if j == k then t else Filter(OfKind(k), s)
  {
    hide Filter, ValidTable, OfKind;
    FilterAppend(OfKind(k), s, t);
    TableByKind(t, j, k);
  }

  lemma DrainedIsSortIffSorted(ts: seq<seq<Row>>, batch: nat)
    requires ValidTables(ts) && batch > 0
    ensures Drained(ts, START, batch) == SortedOnce(ts) <==> SortedBy(RowLe, Drained(ts, START, batch))
  {
    hide Drained, AllRows, RowLe, SortBy;
    RowLeTotal();
    SortBySorts(RowLe, AllRows(ts));
    DrainedIsPermutation(ts, batch);
    var d := Drained(ts, START, batch);
    assert forall x :: x in d <==> x in multiset(d);
    assert forall x :: x in AllRows(ts) <==> x in multiset(AllRows(ts));
    if SortedBy(RowLe, d) {
      forall x, y | x in d && y in d && RowLe(x, y) && RowLe(y, x) ensures x == y {
        RowsDistinct(ts, x, y);
      }
      SortedUnique(RowLe, d, SortedOnce(ts));
    }
  }

  /** A batch that no table fills applies everything in one tick, in sorted order. */
  lemma OneTickSorts(ts: seq<seq<Row>>, pos: seq<nat>, batch: nat)
    requires ValidTables(ts) && ValidPos(ts, pos) && batch > 0
    requires forall k | 0 <= k < TABLES :: |ts[k]| < batch
    ensures SortedBy(RowLe, Drained(ts, pos, batch))
  {
    hide Applied, NextPos, RowLe;
    if Left(ts, pos) != 0 {
      NextPosValid(ts, pos, batch);
      TickProgress(ts, pos, batch);
      AppliedSorted(ts, pos, batch);
      assert Left(ts, NextPos(ts, pos, batch)) == 0;
      assert Drained(ts, pos, batch) == Applied(ts, pos, batch) + [];
    }
  }

  function AgreedBatch(ts: seq<seq<Row>>): (batch: nat)
    requires |ts| == TABLES
    ensures forall k | 0 <= k < TABLES :: |ts[k]| < batch
  {
    |ts[0]| + |ts[1]| + |ts[2]| + |ts[3]| + |ts[4]| + 1
  }

  lemma HarmlessSorts(ts: seq<seq<Row>>, batch: nat)
    requires ValidTables(ts) && batch > 0 && TiesAreHarmless(ts)
    ensures Drained(ts, START, batch) == SortedOnce(ts)
  {
    hide Drained, SortedOnce;
    DrainedSorted(ts, START, batch);
    DrainedIsSortIffSorted(ts, batch);
  }

  lemma HarmfulTiesShow(ts: seq<seq<Row>>, batch: nat)
    requires ValidTables(ts) && batch == 1 && !TiesAreHarmless(ts)
    ensures !SortedBy(RowLe, Drained(ts, START, batch))
  {
    hide Drained, RowLe;
    var k, a, j, b :| TieAt(ts, k, a, j, b);
    HarmfulTieReorders(ts, START, k, a, j, b);
  }

  /** Draining with every batch size applies the rows as one sort of all rows would,
      exactly when ties are harmless. */
  lemma SortsForEveryBatch(ts: seq<seq<Row>>)
    requires ValidTables(ts)
    ensures (forall batch: nat | batch > 0 :: Drained(ts, START, batch) == SortedOnce(ts)) <==> TiesAreHarmless(ts)
  {
    hide Drained, SortedOnce, RowLe;
    if TiesAreHarmless(ts) {
      forall batch: nat | batch > 0 ensures Drained(ts, START, batch) == SortedOnce(ts) {
        HarmlessSorts(ts, batch);
      }
    } else {
      var batch: nat := 1;
      HarmfulTiesShow(ts, batch);
      DrainedIsSortIffSorted(ts, batch);
    }
  }

  ghost predicate BatchSizesAgree(ts: seq<seq<Row>>)
    requires ValidTables(ts)
  {
    forall b: nat, c: nat | b > 0 && c > 0 :: Drained(ts, START, b) == Drained(ts, START, c)
  }

  /** All batch sizes apply the rows in one and the same order, exactly when ties are harmless. */
  lemma BatchSizeIndependence(ts: seq<seq<Row>>)
    requires ValidTables(ts)
    ensures BatchSizesAgree(ts) <==> TiesAreHarmless(ts)
  {
    hide Drained, RowLe, AgreedBatch;
    if TiesAreHarmless(ts) {
      forall b: nat, c: nat | b > 0 && c > 0 ensures Drained(ts, START, b) == Drained(ts, START, c) {
        HarmlessSorts(ts, b);
        HarmlessSorts(ts, c);
      }
    } else {
      var one: nat, big := 1, AgreedBatch(ts);
      HarmfulTiesShow(ts, one);
      OneTickSorts(ts, START, big);
      assert Drained(ts, START, one) != Drained(ts, START, big);
    }
  }

  /** Two orders and an event at one instant: a source with a harmful tie. */
  ghost function TiedSource(): (ts: seq<seq<Row>>)
    ensures ValidTables(ts) && !TiesAreHarmless(ts)
  {
    var ts := [[OrderRow(Order(1, 0, "A", 1, 1)), OrderRow(Order(2, 0, "B", 1, 1))],
               [EventRow(FsmEvent(1, 0, "", "AutoCycle", None, None, "A", ""))], [], [], []];
    assert TieAt(ts, 0, 0, 1, 0);
    ts
  }

  /** On that source the batch size shows. */
  lemma TiedSourceShowsBatchSize()
    ensures !BatchSizesAgree(TiedSource())
  {
    hide Drained, TiedSource;
    BatchSizeIndependence(TiedSource());
  }
}
