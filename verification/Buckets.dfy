/** Which buckets the rollup loops emit (cmd/projector/rollup.go): the cursor makes every bucket come once. */
module Buckets {
  import opened Source
  import opened Frames

  /** Go's remainder truncates toward zero. */
  function GoMod(a: int, b: int): int
    requires b > 0
  {
    if a >= 0 then a % b else -((-a) % b)
  }

  /** hourBucket, and the start of the day of an hour. */
  function BucketOf(ms: int, width: int): int
    requires width > 0
  {
    ms - GoMod(ms, width)
  }

  /** From b on, the buckets that end by upTo. */
  function Series(b: int, width: int, upTo: int): seq<int>
    requires width > 0
    decreases upTo - b
  {
    if b + width <= upTo then [b] + Series(b + width, width, upTo) else []
  }

  /** The cursor is the last bucket emitted, 0 for none. */
  function NextBucket(cursor: int, first: int, width: int): int {
    if cursor == 0 then first else cursor + width
  }

  /** What one call emits; `first` is the bucket of the earliest finished row, if there is one. */
  function EmittedBy(cursor: int, first: Option<int>, width: int, upTo: int): seq<int>
    requires width > 0
  {
    if cursor == 0 && first.None? then []
    else Series(if cursor == 0 then first.value else cursor + width, width, upTo)
  }

  function CursorAfter(cursor: int, emitted: seq<int>): int {
    if emitted == [] then cursor else Last(emitted)
  }

  datatype Call = Call(first: Option<int>, upTo: int)

  function CursorAfterCalls(width: int, calls: seq<Call>): int
    requires width > 0
  {
    if calls == [] then 0
    else
      var c := CursorAfterCalls(width, Front(calls));
      CursorAfter(c, EmittedBy(c, Last(calls).first, width, Last(calls).upTo))
  }

  /** Everything a sequence of calls emits. */
  function LogOf(width: int, calls: seq<Call>): seq<int>
    requires width > 0
  {
    if calls == [] then []
    else
      var c := Last(calls);
      LogOf(width, Front(calls)) + EmittedBy(CursorAfterCalls(width, Front(calls)), c.first, width, c.upTo)
  }

  /** Aligned buckets, each the successor of the one before. */
  ghost predicate Successive(log: seq<int>, width: int)
    requires width > 0
  {
    && (forall k | 0 <= k < |log| :: log[k] % width == 0)
    && (forall k | 0 < k < |log| :: log[k] == log[k - 1] + width)
  }

  lemma AlignedNext(b: int, width: int)
    requires width > 0 && b % width == 0
    ensures (b + width) % width == 0
  {
    var q := b / width;
    assert b == q * width;
    MultipleIsAligned(q + 1, width);
    assert (q + 1) * width == b + width;
  }

  lemma MultipleIsAligned(q: int, width: int)
    requires width > 0
    ensures (q * width) % width == 0
  {
    var r := (q * width) % width;
    var p := (q * width) / width;
    assert q * width == p * width + r;
    assert (q - p) * width == r;
    MultipleBounds(q - p, width);
  }

  lemma MultipleBounds(p: int, width: int)
    requires width > 0
    ensures p >= 1 ==> p * width >= width
    ensures p == 0 ==> p * width == 0
    ensures p <= -1 ==> p * width <= -width
  {
    if p >= 1 {
      assert p * width == width + (p - 1) * width;
    } else if p <= -1 {
      assert p * width == -width + (p + 1) * width;
    }
  }

  lemma {:induction false} SeriesSuccessive(b: int, width: int, upTo: int)
    requires width > 0 && b % width == 0
    ensures var s := Series(b, width, upTo);
            && Successive(s, width)
            && (s != [] ==> s[0] == b && b <= Last(s) && upTo < Last(s) + 2 * width)
            && (s == [] ==> upTo < b + width)
            && (forall k | 0 <= k < |s| :: b <= s[k] && s[k] + width <= upTo)
    decreases upTo - b
  {
    if b + width <= upTo {
      AlignedNext(b, width);
      SeriesSuccessive(b + width, width, upTo);
    }
  }

  /** The first bucket of history is aligned and lies after the epoch. */
  ghost predicate GoodHistory(calls: seq<Call>, width: int)
    requires width > 0
  {
    forall k | 0 <= k < |calls| && calls[k].first.Some? ::
      calls[k].first.value > 0 && calls[k].first.value % width == 0
  }

  ghost predicate Logged(log: seq<int>, cursor: int, width: int)
    requires width > 0
  {
    Successive(log, width) && if log == [] then cursor == 0 else cursor == Last(log) && log[0] > 0 && cursor > 0
  }

  /** The bucket a call starts at is aligned and after the epoch. */
  lemma NextIsGood(log: seq<int>, cursor: int, width: int, c: Call)
    requires width > 0 && Logged(log, cursor, width) && (cursor != 0 || c.first.Some?)
    requires c.first.Some? ==> c.first.value > 0 && c.first.value % width == 0
    ensures var b := NextBucket(cursor, c.first.GetOr(0), width);
            && b > 0 && b % width == 0 && (log != [] ==> b == Last(log) + width)
            && EmittedBy(cursor, c.first, width, c.upTo) == Series(b, width, c.upTo)
  {
    if cursor != 0 {
      LastAligned(log, width);
      AlignedNext(cursor, width);
    }
  }

  lemma CallExtends(log: seq<int>, cursor: int, width: int, c: Call)
    requires width > 0 && Logged(log, cursor, width)
    requires c.first.Some? ==> c.first.value > 0 && c.first.value % width == 0
    ensures var more := EmittedBy(cursor, c.first, width, c.upTo); Logged(log + more, CursorAfter(cursor, more), width)
  {
    hide Successive, Series;
    if cursor != 0 || c.first.Some? {
      var b := NextBucket(cursor, c.first.GetOr(0), width);
      NextIsGood(log, cursor, width, c);
      SeriesSuccessive(b, width, c.upTo);
      var more := Series(b, width, c.upTo);
      SuccessiveJoin(log, more, width);
      if more != [] {
        assert Last(log + more) == Last(more) && (log + more)[0] == if log == [] then more[0] else log[0];
      } else {
        assert log + more == log;
      }
    } else {
      assert log + [] == log;
    }
  }

  /** A call emits nothing that ends after its bound and leaves nothing out that ends by it. */
  lemma CallBounds(log: seq<int>, cursor: int, width: int, c: Call)
    requires width > 0 && Logged(log, cursor, width)
    requires c.first.Some? ==> c.first.value > 0 && c.first.value % width == 0
    ensures var more := EmittedBy(cursor, c.first, width, c.upTo);
            && (forall k | 0 <= k < |more| :: more[k] + width <= c.upTo)
            && (cursor != 0 || c.first.Some? ==>
                  c.upTo < NextBucket(CursorAfter(cursor, more), c.first.GetOr(0), width) + width)
  {
    hide Successive, Series, Logged;
    if cursor != 0 || c.first.Some? {
      var b := NextBucket(cursor, c.first.GetOr(0), width);
      NextIsGood(log, cursor, width, c);
      SeriesSuccessive(b, width, c.upTo);
    }
  }

  lemma LastAligned(log: seq<int>, width: int)
    requires width > 0 && Successive(log, width) && log != []
    ensures Last(log) % width == 0
  {
  }

  lemma SuccessiveJoin(a: seq<int>, b: seq<int>, width: int)
    requires width > 0 && Successive(a, width) && Successive(b, width)
    requires a != [] && b != [] ==> b[0] == Last(a) + width
    ensures Successive(a + b, width)
  {
    var c := a + b;
    forall k | 0 <= k < |c| ensures c[k] % width == 0 {
      assert c[k] == if k < |a| then a[k] else b[k - |a|];
    }
    forall k | 0 < k < |c| ensures c[k] == c[k - 1] + width {
      if k < |a| {
        assert c[k] == a[k];
      } else if k > |a| {
        assert c[k] == b[k - |a|];
      }
    }
  }

  lemma {:induction false} CallsExtend(width: int, calls: seq<Call>)
    requires width > 0 && GoodHistory(calls, width)
    ensures Logged(LogOf(width, calls), CursorAfterCalls(width, calls), width)
  {
    if calls != [] {
      assert GoodHistory(Front(calls), width) by {
        assert forall k | 0 <= k < |Front(calls)| :: Front(calls)[k] == calls[k];
      }
      CallsExtend(width, Front(calls));
      CallExtends(LogOf(width, Front(calls)), CursorAfterCalls(width, Front(calls)), width, Last(calls));
    }
  }

  lemma {:induction false} SuccessiveRises(log: seq<int>, width: int, j: nat, k: nat)
    requires width > 0 && Successive(log, width) && j < k < |log|
    ensures log[j] < log[k]
    decreases k
  {
    if j < k - 1 {
      SuccessiveRises(log, width, j, k - 1);
    }
  }

  ghost predicate EachOnce(log: seq<int>) {
    forall j, k | 0 <= j < k < |log| :: log[j] != log[k]
  }

  /** Over any sequence of calls the emitted buckets are aligned, consecutive and each emitted once; none ends after
      the bound of its call, and after a call that finds history the next bucket ends beyond the bound. */
  lemma BucketsOnce(width: int, calls: seq<Call>)
    requires width > 0 && GoodHistory(calls, width)
    ensures Successive(LogOf(width, calls), width) && EachOnce(LogOf(width, calls))
    ensures calls != [] ==>
              var c := CursorAfterCalls(width, Front(calls));
              var more := EmittedBy(c, Last(calls).first, width, Last(calls).upTo);
              && LogOf(width, calls) == LogOf(width, Front(calls)) + more
              && (forall k | 0 <= k < |more| :: more[k] + width <= Last(calls).upTo)
              && (c != 0 || Last(calls).first.Some? ==>
                    Last(calls).upTo <
                      NextBucket(CursorAfterCalls(width, calls), Last(calls).first.GetOr(0), width) + width)
  {
    CallsExtend(width, calls);
    var log := LogOf(width, calls);
    forall j, k | 0 <= j < k < |log| ensures log[j] != log[k] {
      SuccessiveRises(log, width, j, k);
    }
    if calls != [] {
      assert GoodHistory(Front(calls), width) by {
        assert forall k | 0 <= k < |Front(calls)| :: Front(calls)[k] == calls[k];
      }
      CallsExtend(width, Front(calls));
      CallBounds(LogOf(width, Front(calls)), CursorAfterCalls(width, Front(calls)), width, Last(calls));
    }
  }

  // ---------------------------------------------------------------------------
  // A history that starts at or before the epoch
  // ---------------------------------------------------------------------------

  lemma {:induction false} SeriesReachesEpoch(b: int, width: int)
    requires width > 0 && b % width == 0 && b <= 0
    ensures Series(b, width, width) != [] && Series(b, width, width)[0] == b && Last(Series(b, width, width)) == 0
    decreases -b
  {
    if b < 0 {
      AlignedNext(b, width);
      NegativeMultiple(b, width);
      SeriesReachesEpoch(b + width, width);
      assert Series(b, width, width) == [b] + Series(b + width, width, width);
    } else {
      assert Series(width, width, width) == [];
    }
  }

  lemma NegativeMultiple(b: int, width: int)
    requires width > 0 && b % width == 0 && b < 0
    ensures b <= -width
  {
    var q := b / width;
    assert b == q * width;
    MultipleBounds(q, width);
  }

  ghost predicate FirstIs(calls: seq<Call>, first: int) {
    forall k | 0 <= k < |calls| :: calls[k].first == Some(first)
  }

  /** A call that leaves the cursor at the epoch is repeated by the next one. */
  lemma CalledTwice(width: int, c: Call)
    requires width > 0 && c.first.Some?
    requires var s := Series(c.first.value, width, c.upTo); s != [] && Last(s) == 0
    ensures var s := Series(c.first.value, width, c.upTo); LogOf(width, [c, c]) == s + s
  {
    hide Series;
    var none: seq<Call> := [];
    assert Front([c, c]) == [c] && Front([c]) == none;
    assert CursorAfterCalls(width, none) == 0 && LogOf(width, none) == [];
    assert EmittedBy(0, c.first, width, c.upTo) == Series(c.first.value, width, c.upTo);
    assert CursorAfterCalls(width, [c]) == 0;
  }

  /** For an aligned first bucket, no sequence of calls emits a bucket twice exactly when it lies after the epoch:
      the cursor cannot tell the epoch's bucket from none. */
  lemma EachOnceExactlyAfterEpoch(width: int, first: int)
    requires width > 0 && first % width == 0
    ensures (forall calls | FirstIs(calls, first) :: EachOnce(LogOf(width, calls)))
       <==> first > 0
  {
    if first > 0 {
      forall calls | FirstIs(calls, first)
        ensures EachOnce(LogOf(width, calls))
      {
        BucketsOnce(width, calls);
      }
    } else {
      var c := Call(Some(first), width);
      var s := Series(first, width, width);
      SeriesReachesEpoch(first, width);
      var calls := [c, c];
      var log := LogOf(width, calls);
      CalledTwice(width, c);
      assert log == s + s;
      assert log[0] == log[|s|];
      assert FirstIs(calls, first) && !EachOnce(log);
    }
  }
}
