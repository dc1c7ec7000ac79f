/** Hours and days in one rollup table (cmd/projector/rollup.go): each grain is emitted as if it were alone. */
module Grains {
  import opened Sorting
  import opened Frames
  import opened Replica
  import opened Buckets
  import opened StateStores
  import opened RollupEmitters
  import Additivity
  import Calendar
  import Text

  function OfGrain(g: Grain): RollupRow -> bool {
    (r: RollupRow) => r.grain == g
  }

  function RowsOfGrain(g: Grain, rows: seq<RollupRow>): seq<RollupRow> {
    Filter(OfGrain(g), rows)
  }

  /** What is stored of one grain in p is what is stored in q. */
  ghost predicate SameGrain(g: Grain, p: Progress, q: Progress) {
    && RowsOfGrain(g, p.emission.rows) == q.emission.rows
    && MarkOf(p.emission.marks, TableOf(g)) == MarkOf(q.emission.marks, TableOf(g))
    && CursorOf(p.cursors, TableOf(g)) == CursorOf(q.cursors, TableOf(g))
  }

  ghost predicate SameEmission(g: Grain, e: Emission, f: Emission) {
    RowsOfGrain(g, e.rows) == f.rows && MarkOf(e.marks, TableOf(g)) == MarkOf(f.marks, TableOf(g))
  }

  lemma TablesOfGrainsDiffer(g: Grain, h: Grain)
    ensures TableOf(g) == TableOf(h) ==> g == h
  {
    assert TableOf(Hour)[0] == 'h' && TableOf(Day)[0] == 'd';
  }

  lemma MarkSame(a: Marks, b: Marks, table: string, ms: int)
    requires MarkOf(a, table) == MarkOf(b, table)
    ensures Guarded(a, table, ms) == Guarded(b, table, ms)
    ensures var ts := Guarded(a, table, ms);
            MarkOf(SetMark(a, table, ts), table) == MarkOf(SetMark(b, table, ts), table)
  {
    hide Calendar.EventTS, Text.LexLess, MarkOf;
    var ts := Guarded(a, table, ms);
    MarkIsMax(Store(a, a), table, ts, table);
    MarkIsMax(Store(b, b), table, ts, table);
  }

  lemma BucketSame(g: Grain, t: Tables, e: Emission, f: Emission, b: int)
    requires SameEmission(g, e, f)
    ensures SameEmission(g, EmitBucket(g, t, e, b), EmitBucket(g, t, f, b))
  {
    hide Guarded, SetMark, MarkOf, Filter, Additivity.AggregateCycles, OccupancyIn, FaultColumn, Calendar.DateUTC;
    MarkSame(e.marks, f.marks, TableOf(g), b + Width(g));
    FilterSnoc(OfGrain(g), e.rows, RowOf(g, t, b, Guarded(e.marks, TableOf(g), b + Width(g))));
  }

  lemma BucketElsewhere(g: Grain, h: Grain, t: Tables, e: Emission, f: Emission, b: int)
    requires g != h && SameEmission(g, e, f)
    ensures SameEmission(g, EmitBucket(h, t, e, b), f)
  {
    hide Guarded, Filter, Additivity.AggregateCycles, OccupancyIn, FaultColumn, Calendar.DateUTC, Text.LexLe;
    var row := RowOf(h, t, b, Guarded(e.marks, TableOf(h), b + Width(h)));
    FilterSnoc(OfGrain(g), e.rows, row);
    assert Filter(OfGrain(g), e.rows) + [] == Filter(OfGrain(g), e.rows);
    TablesOfGrainsDiffer(g, h);
  }

  lemma {:induction false} BucketsSame(g: Grain, t: Tables, e: Emission, f: Emission, buckets: seq<int>)
    requires SameEmission(g, e, f)
    ensures SameEmission(g, EmitBuckets(g, t, e, buckets), EmitBuckets(g, t, f, buckets))
  {
    hide EmitBucket, SameEmission;
    if buckets != [] {
      BucketsSame(g, t, e, f, Front(buckets));
      BucketSame(g, t, EmitBuckets(g, t, e, Front(buckets)), EmitBuckets(g, t, f, Front(buckets)), Last(buckets));
    }
  }

  lemma {:induction false} BucketsElsewhere(g: Grain, h: Grain, t: Tables, e: Emission, f: Emission, buckets: seq<int>)
    requires g != h && SameEmission(g, e, f)
    ensures SameEmission(g, EmitBuckets(h, t, e, buckets), f)
  {
    hide EmitBucket, SameEmission;
    if buckets != [] {
      BucketsElsewhere(g, h, t, e, f, Front(buckets));
      BucketElsewhere(g, h, t, EmitBuckets(h, t, e, Front(buckets)), f, Last(buckets));
    }
  }

  lemma GrainSame(g: Grain, t: Tables, p: Progress, q: Progress, upTo: int)
    requires SameGrain(g, p, q)
    ensures SameGrain(g, GrainAfter(g, t, p, upTo), GrainAfter(g, t, q, upTo))
  {
    hide EmitBuckets, MarkOf, Filter, EmittedBy, FirstBucket;
    BucketsSame(g, t, p.emission, q.emission, DueBuckets(g, t, p.cursors, upTo));
  }

  lemma GrainElsewhere(g: Grain, h: Grain, t: Tables, p: Progress, q: Progress, upTo: int)
    requires g != h && SameGrain(g, p, q)
    ensures SameGrain(g, GrainAfter(h, t, p, upTo), q)
  {
    hide EmitBuckets, MarkOf, Filter, EmittedBy, FirstBucket;
    BucketsElsewhere(g, h, t, p.emission, q.emission, DueBuckets(h, t, p.cursors, upTo));
    TablesOfGrainsDiffer(g, h);
  }

  /** One round of both grains is, for each grain, one call for it. */
  lemma RoundSame(g: Grain, t: Tables, p: Progress, q: Progress, upTo: int)
    requires SameGrain(g, p, q) && upTo > 0
    ensures SameGrain(g, RollupsAfter(t, p, upTo), GrainAfter(g, t, q, upTo))
  {
    hide GrainAfter, SameGrain;
    if g == Hour {
      GrainSame(Hour, t, p, q, upTo);
      GrainElsewhere(Hour, Day, t, GrainAfter(Hour, t, p, upTo), GrainAfter(Hour, t, q, upTo), upTo);
    } else {
      GrainElsewhere(Day, Hour, t, p, q, upTo);
      GrainSame(Day, t, GrainAfter(Hour, t, p, upTo), q, upTo);
    }
  }

  // ---------------------------------------------------------------------------
  // Any number of rounds
  // ---------------------------------------------------------------------------

  /** The rollup rows of both grains after all rounds. */
  function AfterAllRounds(rounds: seq<Round>): Progress {
    if rounds == [] then Progress(Emission([], map[]), map[])
    else RollupsAfter(Last(rounds).t, AfterAllRounds(Front(rounds)), Last(rounds).upTo)
  }

  ghost predicate AfterTheEpoch(rounds: seq<Round>) {
    forall k | 0 <= k < |rounds| :: rounds[k].upTo > 0
  }

  /** In the common table the rows of a grain are those it would emit alone. */
  lemma {:induction false} EachGrainAsIfAlone(g: Grain, rounds: seq<Round>)
    requires AfterTheEpoch(rounds)
    ensures SameGrain(g, AfterAllRounds(rounds), AfterRounds(g, rounds))
  {
    hide RollupsAfter, GrainAfter, SameGrain;
    if rounds == [] {
      NothingSame(g);
    } else {
      EachGrainAsIfAlone(g, Front(rounds));
      RoundSame(g, Last(rounds).t, AfterAllRounds(Front(rounds)), AfterRounds(g, Front(rounds)), Last(rounds).upTo);
    }
  }

  lemma NothingSame(g: Grain)
    ensures SameGrain(g, Progress(Emission([], map[]), map[]), Progress(Emission([], map[]), map[]))
  {
  }

  /** Rows of one grain for aligned, consecutive buckets, no two for one bucket, in the order of their timestamps. */
  ghost predicate OnePerBucket(g: Grain, rows: seq<RollupRow>) {
    && Successive(BucketStarts(rows), Width(g)) && EachOnce(BucketStarts(rows))
    && forall j, k | 0 <= j < k < |rows| :: Text.LexLe(rows[j].eventTS, rows[k].eventTS)
  }

  /** No row of the tables of any round starts before an instant. */
  ghost predicate StartFrom(rounds: seq<Round>, lo: int) {
    forall k, i | 0 <= k < |rounds| && 0 <= i < |Starts(rounds[k].t)| :: Starts(rounds[k].t)[i] >= lo
  }

  /** So each grain has one row per bucket in the common table as well. */
  lemma OneRowPerBucketAndGrain(g: Grain, rounds: seq<Round>)
    requires AfterTheEpoch(rounds) && StartFrom(rounds, Width(g))
    ensures OnePerBucket(g, RowsOfGrain(g, AfterAllRounds(rounds).emission.rows))
  {
    hide Starts, AfterAllRounds, AfterRounds, Successive, BucketStarts, EachOnce, Text.LexLe, Filter, Width;
    EachGrainAsIfAlone(g, rounds);
    OneRowPerBucket(g, rounds);
  }
}
