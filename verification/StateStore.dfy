/** Watermarks and cursors (cmd/projector/state.go), and the streams they guard (cmd/projector/writer.go). */
module StateStores {
  import opened Text
  import opened Calendar
  import opened Frames
  import opened Replica

  datatype SourceCursor = SourceCursor(lastID: int, lastClosedMS: int)

  /** Cursors, watermarks and the configuration seen last; `durable...` is the database, `marks` the cache in front of
      its watermarks. */
  class StateStore {
    var marks: Marks
    var durableMarks: Marks
    var durableCursors: map<string, SourceCursor>
    var durableConfig: map<string, string>

    ghost predicate Valid()
      reads this
    {
      marks == durableMarks
    }

    /** Opens an existing database: the cache is read back row by row. */
    constructor (savedMarks: Marks, savedCursors: map<string, SourceCursor>, savedConfig: map<string, string>)
      ensures Valid() && marks == savedMarks && durableCursors == savedCursors && durableConfig == savedConfig
    {
      durableMarks := savedMarks;
      durableCursors := savedCursors;
      durableConfig := savedConfig;
      marks := map[];
      new;
      LoadWatermarks();
    }

    method LoadWatermarks()
      requires marks == map[]
      modifies this`marks
      ensures marks == durableMarks
    {
      var todo := durableMarks.Keys;
      while todo != {}
        invariant todo <= durableMarks.Keys
        invariant marks == map t | t in durableMarks.Keys - todo :: durableMarks[t]
        decreases todo
      {
        var t :| t in todo;
        marks := marks[t := durableMarks[t]];
        todo := todo - {t};
      }
    }

    method Watermark(table: string) returns (ts: string)
      ensures ts == MarkOf(marks, table)
    {
      ts := if table in marks then marks[table] else "";
    }

    method SetWatermark(table: string, ts: string)
      requires Valid()
      modifies this`marks, this`durableMarks
      ensures Valid() && marks == SetMark(old(marks), table, ts)
    {
      if table in marks && LexLe(ts, marks[table]) {
        return;
      }
      marks := marks[table := ts];
      durableMarks := durableMarks[table := ts];
    }

    method Cursor(table: string) returns (c: SourceCursor)
      ensures c == CursorOf(durableCursors, table)
    {
      c := if table in durableCursors then durableCursors[table] else SourceCursor(0, 0);
    }

    method SetCursor(table: string, lastID: int, lastClosedMS: int)
      modifies this`durableCursors
      ensures durableCursors == old(durableCursors)[table := SourceCursor(lastID, lastClosedMS)]
    {
      durableCursors := durableCursors[table := SourceCursor(lastID, lastClosedMS)];
    }

    method ConfigSnapshot() returns (config: map<string, string>)
      ensures config == durableConfig
    {
      config := durableConfig;
    }

    /** Every value is stored; a key that is gone from the table stays in the snapshot. */
    method SetConfigSnapshot(config: map<string, string>)
      modifies this`durableConfig
      ensures durableConfig == old(durableConfig) + config
    {
      durableConfig := durableConfig + config;
    }
  }

  function CursorOf(cursors: map<string, SourceCursor>, table: string): SourceCursor {
    if table in cursors then cursors[table] else SourceCursor(0, 0)
  }

  // ---------------------------------------------------------------------------
  // Guarded streams
  // ---------------------------------------------------------------------------

  /** Write: guard, insert and SetWatermark. Mark: SetWatermark alone. Restart: a new process loads the database. */
  datatype Op = Write(table: string, ms: int) | Mark(table: string, ts: string) | Restart

  datatype Store = Store(marks: Marks, durable: Marks)

  /** SetWatermark on the cache and the database behind it. */
  function Marked(s: Store, table: string, ts: string): Store {
    if table in s.marks && LexLe(ts, s.marks[table]) then s
    else Store(s.marks[table := ts], s.durable[table := ts])
  }

  function After(s: Store, op: Op): Store {
    match op
    case Write(table, ms) => Marked(s, table, Guarded(s.marks, table, ms))
    case Mark(table, ts) => Marked(s, table, ts)
    case Restart => Store(s.durable, s.durable)
  }

  function AfterAll(ops: seq<Op>): Store {
    if ops == [] then Store(map[], map[]) else After(AfterAll(Front(ops)), Last(ops))
  }

  /** The timestamps a table's rows get. */
  function Stream(ops: seq<Op>, table: string): seq<string> {
    if ops == [] then []
    else
      var op := Last(ops);
      Stream(Front(ops), table)
      + if op.Write? && op.table == table then [Guarded(AfterAll(Front(ops)).marks, table, op.ms)] else []
  }

  /** The largest timestamp a table was ever given. */
  function HighWater(ops: seq<Op>, table: string): string {
    if ops == [] then ""
    else
      var op, high := Last(ops), HighWater(Front(ops), table);
      match op
      case Write(t, ms) => if t == table then Text.Max(high, EventTS(ms)) else high
      case Mark(t, ts) => if t == table then Text.Max(high, ts) else high
      case Restart => high
  }

  lemma EmptyIsLeast(s: string)
    ensures Text.Max("", s) == s
  {
  }

  lemma MaxIdempotent(a: string, b: string)
    ensures Text.Max(a, Text.Max(a, b)) == Text.Max(a, b)
  {
    LexTrichotomy(a, b);
    LexTrichotomy(a, a);
  }

  lemma {:induction false} MarksAreHighWater(ops: seq<Op>, table: string)
    ensures MarkOf(AfterAll(ops).marks, table) == HighWater(ops, table)
    ensures AfterAll(ops).durable == AfterAll(ops).marks
  {
    hide EventTS, LexLess;
    if ops != [] {
      var s, op, high := AfterAll(Front(ops)), Last(ops), HighWater(Front(ops), table);
      MarksAreHighWater(Front(ops), table);
      match op {
        case Write(t, ms) =>
          if t == table {
            GuardIsMax(s.marks, table, ms);
            MaxIdempotent(high, EventTS(ms));
          }
          MarkIsMax(s, t, Guarded(s.marks, t, ms), table);
        case Mark(t, ts) => MarkIsMax(s, t, ts, table);
        case Restart =>
      }
    }
  }

  lemma GuardIsMax(marks: Marks, table: string, ms: int)
    ensures Guarded(marks, table, ms) == Text.Max(MarkOf(marks, table), EventTS(ms))
  {
    hide EventTS;
    LexTrichotomy(MarkOf(marks, table), EventTS(ms));
    EmptyIsLeast(EventTS(ms));
  }

  lemma MarkIsMax(s: Store, table: string, ts: string, other: string)
    requires s.durable == s.marks
    ensures var r := Marked(s, table, ts);
            && r.durable == r.marks
            && MarkOf(r.marks, other)
               == if other == table then Text.Max(MarkOf(s.marks, table), ts) else MarkOf(s.marks, other)
  {
    hide LexLess;
    EmptyIsLeast(ts);
    LexTrichotomy(MarkOf(s.marks, table), ts);
  }

  lemma LexLeMax(a: string, b: string)
    ensures LexLe(a, Text.Max(a, b)) && LexLe(b, Text.Max(a, b))
  {
    LexTrichotomy(a, b);
  }

  /** Whatever is written, marked or restarted in between, each row of a table carries the largest timestamp the table
      was given so far, so a table's stream never steps back. */
  lemma {:induction false} StreamIsRunningMax(ops: seq<Op>, table: string)
    ensures var s := Stream(ops, table);
            && (forall j, k | 0 <= j < k < |s| :: LexLe(s[j], s[k]))
            && (forall k | 0 <= k < |s| :: LexLe(s[k], HighWater(ops, table)))
    ensures ops != [] && Last(ops).Write? && Last(ops).table == table ==>
              Stream(ops, table) == Stream(Front(ops), table) + [HighWater(ops, table)]
  {
    hide EventTS, LexLess;
    if ops != [] {
      var op, high := Last(ops), HighWater(Front(ops), table);
      StreamIsRunningMax(Front(ops), table);
      MarksAreHighWater(Front(ops), table);
      StillBelow(Stream(Front(ops), table), high, HighWater(ops, table)) by {
        HighWaterRises(ops, table);
      }
      if op.Write? && op.table == table {
        GuardIsMax(AfterAll(Front(ops)).marks, table, op.ms);
      }
    }
  }

  lemma HighWaterRises(ops: seq<Op>, table: string)
    requires ops != []
    ensures LexLe(HighWater(Front(ops), table), HighWater(ops, table))
  {
    hide EventTS, LexLess;
    var op, high := Last(ops), HighWater(Front(ops), table);
    match op {
      case Write(t, ms) => LexLeMax(high, EventTS(ms));
      case Mark(t, ts) => LexLeMax(high, ts);
      case Restart =>
    }
  }

  lemma StillBelow(s: seq<string>, a: string, b: string)
    requires LexLe(a, b) && forall k | 0 <= k < |s| :: LexLe(s[k], a)
    ensures forall k | 0 <= k < |s| :: LexLe(s[k], b)
  {
    hide LexLess;
    forall k | 0 <= k < |s| ensures LexLe(s[k], b) {
      if s[k] != a && a != b {
        LexTransitive(s[k], a, b);
      }
    }
  }
}
