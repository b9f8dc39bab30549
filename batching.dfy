/** The ingestion loop of `upload` as a pure state machine: every row that
    reaches the `data` handler is one `Step`; the `end` handler is `Finish`;
    the sink (the store's bulk insert) is an oracle that answers, flush by
    flush, whether the insert succeeded. The log records the calls the
    handlers make on the stream and on the store, in order. */
module Flow {
  import opened Options
  import opened Rows

  /** Capacity of a batch. */
  const BATCH_SIZE: nat := 1000

  /** A call on the stream (`pause`, `resume`) or on the store (a bulk
      insert of `records`, which succeeded when `ok`). */
  datatype Event = Pause | Insert(records: seq<Record>, ok: bool) | Resume

  /** The counters and the pending batch of one upload, and the log of the
      calls made so far. */
  datatype Stats = Stats(
    total: nat,
    processed: nat,
    errors: nat,
    batch: seq<Record>,
    log: seq<Event>)

  const Initial: Stats := Stats(0, 0, 0, [], [])

  /** What the upload answers: the counters, and whether it succeeded. */
  datatype Response = Response(success: bool, totalRecords: nat, processedRecords: nat, errors: nat)

  // ---------------------------------------------------------------------
  // Reading the log
  // ---------------------------------------------------------------------

  function InsertCount(log: seq<Event>): nat {
    if log == [] then 0
    else InsertCount(log[..|log| - 1]) + (if log[|log| - 1].Insert? then 1 else 0)
  }

  function PauseCount(log: seq<Event>): nat {
    if log == [] then 0
    else PauseCount(log[..|log| - 1]) + (if log[|log| - 1].Pause? then 1 else 0)
  }

  function ResumeCount(log: seq<Event>): nat {
    if log == [] then 0
    else ResumeCount(log[..|log| - 1]) + (if log[|log| - 1].Resume? then 1 else 0)
  }

  /** Whether the stream is paused after the calls of `log`. */
  predicate Paused(log: seq<Event>) {
    if log == [] then false
    else match log[|log| - 1]
      case Pause => true
      case Resume => false
      case Insert(_, _) => Paused(log[..|log| - 1])
  }

  /** All records handed to the store, in the order they were handed over. */
  function Inserted(log: seq<Event>): seq<Record> {
    if log == [] then []
    else Inserted(log[..|log| - 1])
         + (if log[|log| - 1].Insert? then log[|log| - 1].records else [])
  }

  /** Records of the inserts that succeeded. */
  function Committed(log: seq<Event>): nat {
    if log == [] then 0
    else Committed(log[..|log| - 1])
         + (if log[|log| - 1].Insert? && log[|log| - 1].ok then |log[|log| - 1].records| else 0)
  }

  /** Records of the inserts that failed. */
  function Failed(log: seq<Event>): nat {
    if log == [] then 0
    else Failed(log[..|log| - 1])
         + (if log[|log| - 1].Insert? && !log[|log| - 1].ok then |log[|log| - 1].records| else 0)
  }

  /** The outcome of every insert, in order. */
  function Outcomes(log: seq<Event>): seq<bool> {
    if log == [] then []
    else Outcomes(log[..|log| - 1]) + (if log[|log| - 1].Insert? then [log[|log| - 1].ok] else [])
  }

  /** The size of every insert, in order. */
  function BatchSizes(log: seq<Event>): seq<nat> {
    if log == [] then []
    else BatchSizes(log[..|log| - 1]) + (if log[|log| - 1].Insert? then [|log[|log| - 1].records|] else [])
  }

  function TrueCount(s: seq<bool>): nat {
    if s == [] then 0 else TrueCount(s[..|s| - 1]) + (if s[|s| - 1] then 1 else 0)
  }

  /** `outs` are the sink's first answers, in order. */
  ghost predicate FollowsSink(outs: seq<bool>, sink: nat -> bool) {
    forall k :: 0 <= k < |outs| ==> outs[k] == sink(k)
  }

  /** The log of the `data` handler: nothing but flush cycles, each one a
      pause, one insert of a full batch, and a resume. */
  predicate Cycles(log: seq<Event>) {
    if log == [] then true
    else
      |log| >= 3 && log[|log| - 3] == Pause && log[|log| - 2].Insert?
      && |log[|log| - 2].records| == BATCH_SIZE && log[|log| - 1] == Resume
      && Cycles(log[..|log| - 3])
  }

  /** The log of a finished upload: flush cycles, then possibly one insert
      of the partial batch, with no pause around it. */
  predicate FinalLog(log: seq<Event>) {
    Cycles(log)
    || (|log| > 0 && log[|log| - 1].Insert?
        && 0 < |log[|log| - 1].records| < BATCH_SIZE && Cycles(log[..|log| - 1]))
  }

  // ---------------------------------------------------------------------
  // Reading the rows
  // ---------------------------------------------------------------------

  /** The records the validator produces from `rows`, in arrival order. */
  function Accepted(rows: seq<RawRow>): seq<Record> {
    if rows == [] then []
    else Accepted(rows[..|rows| - 1])
         + (match Validate(rows[|rows| - 1]) case Some(rec) => [rec] case None => [])
  }

  /** How many of `rows` the validator rejects. */
  function RejectedCount(rows: seq<RawRow>): (n: nat)
    ensures n <= |rows|
  {
    if rows == [] then 0
    else RejectedCount(rows[..|rows| - 1]) + (if Validate(rows[|rows| - 1]).None? then 1 else 0)
  }

  // ---------------------------------------------------------------------
  // The handlers
  // ---------------------------------------------------------------------

  /** Flush of a full batch inside the `data` handler: pause the stream,
      insert the batch, add its size to exactly one counter (processed on
      success, errors on failure), empty the batch, resume the stream. */
  function Flush(st: Stats, ok: bool): (r: Stats)
    ensures r.total == st.total && r.batch == []
    ensures r.processed + r.errors == st.processed + st.errors + |st.batch|
    ensures if ok then r.errors == st.errors else r.processed == st.processed
    ensures r.log == st.log + [Pause, Insert(st.batch, ok), Resume]
  {
    var log := st.log + [Pause, Insert(st.batch, ok), Resume];
    if ok then st.(processed := st.processed + |st.batch|, batch := [], log := log)
    else st.(errors := st.errors + |st.batch|, batch := [], log := log)
  }

  /** One row through the `data` handler; `ok` is the sink's answer should
      this row fill the batch. */
  function Step(st: Stats, row: RawRow, ok: bool): (r: Stats)
    ensures r.total == st.total + 1
    ensures Validate(row).None? ==>
      && r.errors == st.errors + 1 && r.processed == st.processed
      && r.batch == st.batch && r.log == st.log
    ensures Validate(row).Some? && |st.batch| + 1 < BATCH_SIZE ==>
      && r.batch == st.batch + [Validate(row).value]
      && r.errors == st.errors && r.processed == st.processed && r.log == st.log
    ensures Validate(row).Some? && |st.batch| + 1 >= BATCH_SIZE ==>
      && r.batch == []
      && r.processed + r.errors == st.processed + st.errors + |st.batch| + 1
      && (if ok then r.errors == st.errors else r.processed == st.processed)
      && r.log == st.log + [Pause, Insert(st.batch + [Validate(row).value], ok), Resume]
  {
    var seen := st.(total := st.total + 1);
    match Validate(row)
    case None => seen.(errors := seen.errors + 1)
    case Some(rec) =>
      var grown := seen.(batch := st.batch + [rec]);
      if |grown.batch| >= BATCH_SIZE then Flush(grown, ok) else grown
  }

  /** The `end` handler: insert what is left of the batch, if anything,
      without pausing the exhausted stream. The batch is not emptied. */
  function Finish(st: Stats, ok: bool): (r: Stats)
    ensures r.total == st.total && r.batch == st.batch
    ensures r.processed + r.errors == st.processed + st.errors + |st.batch|
    ensures if ok then r.errors == st.errors else r.processed == st.processed
  {
    if |st.batch| > 0 then
      var log := st.log + [Insert(st.batch, ok)];
      if ok then st.(processed := st.processed + |st.batch|, log := log)
      else st.(errors := st.errors + |st.batch|, log := log)
    else st
  }

  /** All of `rows` through the `data` handler; the sink is asked about
      the k-th flush with `sink(k)`. */
  function Feed(rows: seq<RawRow>, sink: nat -> bool): (r: Stats)
    ensures r.total == |rows| && |r.batch| < BATCH_SIZE
    ensures r.total == r.processed + r.errors + |r.batch|
  {
    if rows == [] then Initial
    else
      var st := Feed(rows[..|rows| - 1], sink);
      Step(st, rows[|rows| - 1], sink(InsertCount(st.log)))
  }

  /** A whole upload of `rows`. Without a stream fault the `end` handler runs
      and the response is a success; a fault after the last row rejects the
      promise and the failure response carries the counters reached. */
  function Run(rows: seq<RawRow>, sink: nat -> bool, streamFault: bool): (r: Response)
    ensures r.success == !streamFault && r.totalRecords == |rows|
    ensures r.processedRecords + r.errors <= r.totalRecords
    ensures r.success ==> r.totalRecords == r.processedRecords + r.errors
    ensures !r.success ==> r.totalRecords - (r.processedRecords + r.errors) < BATCH_SIZE
  {
    var st := Feed(rows, sink);
    if streamFault then Response(false, st.total, st.processed, st.errors)
    else
      var fin := Finish(st, sink(InsertCount(st.log)));
      Response(true, fin.total, fin.processed, fin.errors)
  }

  // ---------------------------------------------------------------------
  // What the log and the rows say
  // ---------------------------------------------------------------------

  lemma AppendCounts(log: seq<Event>, e: Event)
    ensures InsertCount(log + [e]) == InsertCount(log) + (if e.Insert? then 1 else 0)
    ensures PauseCount(log + [e]) == PauseCount(log) + (if e.Pause? then 1 else 0)
    ensures ResumeCount(log + [e]) == ResumeCount(log) + (if e.Resume? then 1 else 0)
    ensures Paused(log + [e]) == (if e.Pause? then true else if e.Resume? then false else Paused(log))
  {
    assert (log + [e])[..|log|] == log;
  }

  lemma AppendRecords(log: seq<Event>, e: Event)
    ensures Inserted(log + [e]) == Inserted(log) + (if e.Insert? then e.records else [])
    ensures Committed(log + [e]) == Committed(log) + (if e.Insert? && e.ok then |e.records| else 0)
    ensures Failed(log + [e]) == Failed(log) + (if e.Insert? && !e.ok then |e.records| else 0)
  {
    assert (log + [e])[..|log|] == log;
  }

  lemma AppendLists(log: seq<Event>, e: Event)
    ensures Outcomes(log + [e]) == Outcomes(log) + (if e.Insert? then [e.ok] else [])
    ensures BatchSizes(log + [e]) == BatchSizes(log) + (if e.Insert? then [|e.records|] else [])
  {
    assert (log + [e])[..|log|] == log;
  }

  /** The effect of one flush cycle on the counts read from the log. */
  lemma CycleCounts(log: seq<Event>, b: seq<Record>, ok: bool)
    ensures var l := log + [Pause, Insert(b, ok), Resume];
      && InsertCount(l) == InsertCount(log) + 1
      && PauseCount(l) == PauseCount(log) + 1
      && ResumeCount(l) == ResumeCount(log) + 1
      && !Paused(l)
  {
    var l1 := log + [Pause];
    var l2 := l1 + [Insert(b, ok)];
    assert l2 + [Resume] == log + [Pause, Insert(b, ok), Resume];
    AppendCounts(log, Pause);
    AppendCounts(l1, Insert(b, ok));
    AppendCounts(l2, Resume);
  }

  /** The effect of one flush cycle on the records read from the log. */
  lemma CycleRecords(log: seq<Event>, b: seq<Record>, ok: bool)
    ensures var l := log + [Pause, Insert(b, ok), Resume];
      && Inserted(l) == Inserted(log) + b
      && Committed(l) == Committed(log) + (if ok then |b| else 0)
      && Failed(l) == Failed(log) + (if ok then 0 else |b|)
  {
    var l1 := log + [Pause];
    var l2 := l1 + [Insert(b, ok)];
    assert l2 + [Resume] == log + [Pause, Insert(b, ok), Resume];
    AppendRecords(log, Pause);
    AppendRecords(l1, Insert(b, ok));
    AppendRecords(l2, Resume);
    assert Inserted(l1) == Inserted(log) by {
      assert Inserted(log) + [] == Inserted(log);
    }
    assert Inserted(l2 + [Resume]) == Inserted(l2) by {
      assert Inserted(l2) + [] == Inserted(l2);
    }
  }

  /** The effect of one flush cycle on the outcomes and sizes read from the log. */
  lemma CycleLists(log: seq<Event>, b: seq<Record>, ok: bool)
    ensures var l := log + [Pause, Insert(b, ok), Resume];
      && Outcomes(l) == Outcomes(log) + [ok]
      && BatchSizes(l) == BatchSizes(log) + [|b|]
  {
    var l1 := log + [Pause];
    var l2 := l1 + [Insert(b, ok)];
    assert l2 + [Resume] == log + [Pause, Insert(b, ok), Resume];
    AppendLists(log, Pause);
    AppendLists(l1, Insert(b, ok));
    AppendLists(l2, Resume);
    assert Outcomes(log) + [] + [ok] + [] == Outcomes(log) + [ok];
    assert BatchSizes(log) + [] + [|b|] + [] == BatchSizes(log) + [|b|];
  }

  lemma CycleShape(log: seq<Event>, b: seq<Record>, ok: bool)
    requires |b| == BATCH_SIZE
    ensures Cycles(log + [Pause, Insert(b, ok), Resume]) == Cycles(log)
  {
    var l := log + [Pause, Insert(b, ok), Resume];
    assert l[..|l| - 3] == log;
  }

  /** Every record handed to the store was handed over by a succeeding or
      a failing insert, never both and never by neither. */
  lemma {:induction false} InsertedSplit(log: seq<Event>)
    ensures |Inserted(log)| == Committed(log) + Failed(log)
  {
    if log != [] {
      InsertedSplit(log[..|log| - 1]);
    }
  }

  lemma {:induction false} CyclesCounts(log: seq<Event>)
    requires Cycles(log)
    ensures PauseCount(log) == ResumeCount(log) == InsertCount(log)
    ensures !Paused(log)
  {
    if log != [] {
      var p := log[..|log| - 3];
      var ins := log[|log| - 2];
      assert log == p + [Pause, Insert(ins.records, ins.ok), Resume];
      CycleCounts(p, ins.records, ins.ok);
      CyclesCounts(p);
    }
  }

  lemma {:induction false} CyclesInserted(log: seq<Event>)
    requires Cycles(log)
    ensures |Inserted(log)| == BATCH_SIZE * InsertCount(log)
  {
    if log != [] {
      var p := log[..|log| - 3];
      var ins := log[|log| - 2];
      assert log == p + [Pause, Insert(ins.records, ins.ok), Resume];
      CyclesInserted(p);
      assert InsertCount(log) == InsertCount(p) + 1 by {
        CycleCounts(p, ins.records, ins.ok);
      }
      assert |Inserted(log)| == |Inserted(p)| + BATCH_SIZE by {
        CycleRecords(p, ins.records, ins.ok);
      }
    }
  }

  lemma {:induction false} CyclesSizes(log: seq<Event>)
    requires Cycles(log)
    ensures BatchSizes(log) == seq(InsertCount(log), _ => BATCH_SIZE)
  {
    if log != [] {
      var p := log[..|log| - 3];
      var ins := log[|log| - 2];
      assert log == p + [Pause, Insert(ins.records, ins.ok), Resume];
      CyclesSizes(p);
      assert InsertCount(log) == InsertCount(p) + 1 by {
        CycleCounts(p, ins.records, ins.ok);
      }
      assert BatchSizes(log) == BatchSizes(p) + [BATCH_SIZE] by {
        CycleLists(p, ins.records, ins.ok);
      }
    }
  }

  lemma TrueCountAppend(s: seq<bool>, x: bool)
    ensures TrueCount(s + [x]) == TrueCount(s) + (if x then 1 else 0)
  {
    assert (s + [x])[..|s|] == s;
  }

  lemma {:induction false} CyclesCommitted(log: seq<Event>)
    requires Cycles(log)
    ensures Committed(log) == BATCH_SIZE * TrueCount(Outcomes(log))
  {
    if log != [] {
      var p := log[..|log| - 3];
      var ins := log[|log| - 2];
      assert log == p + [Pause, Insert(ins.records, ins.ok), Resume];
      CyclesCommitted(p);
      assert Committed(log) == Committed(p) + (if ins.ok then BATCH_SIZE else 0) by {
        CycleRecords(p, ins.records, ins.ok);
      }
      assert TrueCount(Outcomes(log)) == TrueCount(Outcomes(p)) + (if ins.ok then 1 else 0) by {
        CycleLists(p, ins.records, ins.ok);
        TrueCountAppend(Outcomes(p), ins.ok);
      }
    }
  }

  /** Pause/resume pairing: in the `data` handler's log every pause is
      matched by one resume with a single insert between them, every insert
      carries a full batch, the stream ends up flowing, and the records
      committed are a full batch per successful insert. */
  lemma CyclesPaired(log: seq<Event>)
    requires Cycles(log)
    ensures PauseCount(log) == ResumeCount(log) == InsertCount(log)
    ensures !Paused(log)
    ensures |Inserted(log)| == BATCH_SIZE * InsertCount(log)
    ensures BatchSizes(log) == seq(InsertCount(log), _ => BATCH_SIZE)
    ensures Committed(log) == BATCH_SIZE * TrueCount(Outcomes(log))
  {
    CyclesCounts(log);
    CyclesInserted(log);
    CyclesSizes(log);
    CyclesCommitted(log);
  }

  lemma {:induction false} PartitionRows(rows: seq<RawRow>)
    ensures |Accepted(rows)| + RejectedCount(rows) == |rows|
  {
    if rows != [] {
      PartitionRows(rows[..|rows| - 1]);
    }
  }

  lemma AppendRow(rows: seq<RawRow>, row: RawRow)
    ensures (rows + [row])[..|rows|] == rows
    ensures Accepted(rows + [row])
            == Accepted(rows) + (match Validate(row) case Some(rec) => [rec] case None => [])
    ensures RejectedCount(rows + [row]) == RejectedCount(rows) + (if Validate(row).None? then 1 else 0)
  {
    assert (rows + [row])[..|rows|] == rows;
  }

  /** A record reaches the store only if it is what the validator made of
      one of the rows: a rejected row never yields a stored record. */
  lemma {:induction false} AcceptedOrigin(rows: seq<RawRow>, j: nat)
    requires j < |Accepted(rows)|
    ensures exists i :: 0 <= i < |rows| && Validate(rows[i]) == Some(Accepted(rows)[j])
  {
    var p := rows[..|rows| - 1];
    if j < |Accepted(p)| {
      AcceptedOrigin(p, j);
      var i :| 0 <= i < |p| && Validate(p[i]) == Some(Accepted(p)[j]);
      assert rows[i] == p[i];
    } else {
      assert Validate(rows[|rows| - 1]) == Some(Accepted(rows)[j]);
    }
  }

  // ---------------------------------------------------------------------
  // The invariant of the data handler
  // ---------------------------------------------------------------------

  /** What holds between two rows: every row seen is counted once, as an
      error if rejected, else as a record that is in the pending batch or
      was inserted, in arrival order; the batch is below capacity; the log
      is made of flush cycles; the k-th insert used the sink's k-th answer. */
  ghost predicate Streaming(st: Stats, rows: seq<RawRow>, sink: nat -> bool) {
    && st.total == |rows|
    && st.processed == Committed(st.log)
    && st.errors == RejectedCount(rows) + Failed(st.log)
    && Inserted(st.log) + st.batch == Accepted(rows)
    && |st.batch| < BATCH_SIZE
    && Cycles(st.log)
    && |Outcomes(st.log)| == InsertCount(st.log) && FollowsSink(Outcomes(st.log), sink)
  }

  /** What holds after the `end` handler: every accepted record was handed to
      the store exactly once, in arrival order, and every row is counted
      either as processed or as an error. */
  ghost predicate Finished(st: Stats, rows: seq<RawRow>, sink: nat -> bool) {
    && st.total == |rows|
    && st.processed == Committed(st.log)
    && st.errors == RejectedCount(rows) + Failed(st.log)
    && Inserted(st.log) == Accepted(rows)
    && FinalLog(st.log)
    && PauseCount(st.log) == ResumeCount(st.log)
    && !Paused(st.log)
    && |Outcomes(st.log)| == InsertCount(st.log) && FollowsSink(Outcomes(st.log), sink)
    && st.total == st.processed + st.errors
  }

  lemma InitialStreaming(sink: nat -> bool)
    ensures Streaming(Initial, [], sink)
  {
  }

  lemma FollowsNext(outs: seq<bool>, sink: nat -> bool)
    requires FollowsSink(outs, sink)
    ensures FollowsSink(outs + [sink(|outs|)], sink)
  {
  }

  lemma StepRejectPreserves(st: Stats, rows: seq<RawRow>, row: RawRow, sink: nat -> bool)
    requires Streaming(st, rows, sink) && Validate(row).None?
    ensures Streaming(Step(st, row, sink(InsertCount(st.log))), rows + [row], sink)
  {
    AppendRow(rows, row);
    assert Step(st, row, sink(InsertCount(st.log)))
        == st.(total := st.total + 1, errors := st.errors + 1);
  }

  lemma StepGrowPreserves(st: Stats, rows: seq<RawRow>, row: RawRow, sink: nat -> bool)
    requires Streaming(st, rows, sink) && Validate(row).Some?
    requires |st.batch| + 1 < BATCH_SIZE
    ensures Streaming(Step(st, row, sink(InsertCount(st.log))), rows + [row], sink)
  {
    AppendRow(rows, row);
    var b := st.batch + [Validate(row).value];
    assert Step(st, row, sink(InsertCount(st.log))) == st.(total := st.total + 1, batch := b);
    assert Inserted(st.log) + b == Accepted(rows + [row]);
  }

  lemma StepFlushPreserves(st: Stats, rows: seq<RawRow>, row: RawRow, sink: nat -> bool)
    requires Streaming(st, rows, sink) && Validate(row).Some?
    requires |st.batch| + 1 == BATCH_SIZE
    ensures Streaming(Step(st, row, sink(InsertCount(st.log))), rows + [row], sink)
  {
    AppendRow(rows, row);
    var ok := sink(InsertCount(st.log));
    var b := st.batch + [Validate(row).value];
    var r := Step(st, row, ok);
    assert r == Flush(st.(total := st.total + 1, batch := b), ok);
    assert r.log == st.log + [Pause, Insert(b, ok), Resume];
    assert r.processed == Committed(r.log) && r.errors == RejectedCount(rows + [row]) + Failed(r.log)
        && Inserted(r.log) + r.batch == Accepted(rows + [row]) by {
      CycleRecords(st.log, b, ok);
      assert Inserted(r.log) + r.batch == Inserted(st.log) + b;
    }
    assert Cycles(r.log) by {
      CycleShape(st.log, b, ok);
    }
    assert |Outcomes(r.log)| == InsertCount(r.log) && FollowsSink(Outcomes(r.log), sink) by {
      CycleCounts(st.log, b, ok);
      CycleLists(st.log, b, ok);
      FollowsNext(Outcomes(st.log), sink);
    }
  }

  /** One row preserves the invariant. */
  lemma StepPreserves(st: Stats, rows: seq<RawRow>, row: RawRow, sink: nat -> bool)
    requires Streaming(st, rows, sink)
    ensures Streaming(Step(st, row, sink(InsertCount(st.log))), rows + [row], sink)
  {
    if Validate(row).None? {
      StepRejectPreserves(st, rows, row, sink);
    } else if |st.batch| + 1 < BATCH_SIZE {
      StepGrowPreserves(st, rows, row, sink);
    } else {
      StepFlushPreserves(st, rows, row, sink);
    }
  }

  lemma {:induction false} FeedStreaming(rows: seq<RawRow>, sink: nat -> bool)
    ensures Streaming(Feed(rows, sink), rows, sink)
  {
    if rows != [] {
      var p := rows[..|rows| - 1];
      FeedStreaming(p, sink);
      StepPreserves(Feed(p, sink), p, rows[|rows| - 1], sink);
      assert p + [rows[|rows| - 1]] == rows;
    }
  }

  /** Between two rows every row seen is accounted for: processed, counted
      as an error, or waiting in the batch. */
  lemma Accounted(st: Stats, rows: seq<RawRow>, sink: nat -> bool)
    requires Streaming(st, rows, sink)
    ensures st.total == st.processed + st.errors + |st.batch|
  {
    PartitionRows(rows);
    InsertedSplit(st.log);
  }

  /** A failed insert never stops later batches from being attempted: how
      many flushes happened depends on the accepted records only, never on
      the sink's answers. */
  lemma FlushCount(st: Stats, rows: seq<RawRow>, sink: nat -> bool)
    requires Streaming(st, rows, sink)
    ensures |Accepted(rows)| == BATCH_SIZE * InsertCount(st.log) + |st.batch|
  {
    CyclesPaired(st.log);
  }

  /** The `end` handler inserts something exactly when the batch is not
      empty, and does so without a pause. */
  lemma FinalFlushOnlyIfPending(st: Stats, ok: bool)
    ensures var fin := Finish(st, ok);
      && InsertCount(fin.log) == InsertCount(st.log) + (if |st.batch| > 0 then 1 else 0)
      && PauseCount(fin.log) == PauseCount(st.log)
      && ResumeCount(fin.log) == ResumeCount(st.log)
      && (|st.batch| == 0 ==> fin == st)
  {
    if |st.batch| > 0 {
      AppendCounts(st.log, Insert(st.batch, ok));
      AppendRecords(st.log, Insert(st.batch, ok));
      AppendLists(st.log, Insert(st.batch, ok));
    }
  }

  /** The `end` handler turns the running invariant into the final one. */
  lemma FinishEmpty(st: Stats, rows: seq<RawRow>, sink: nat -> bool)
    requires Streaming(st, rows, sink) && st.batch == []
    ensures Finished(Finish(st, sink(InsertCount(st.log))), rows, sink)
  {
    Accounted(st, rows, sink);
    CyclesCounts(st.log);
    assert Inserted(st.log) + [] == Inserted(st.log);
  }

  lemma FinishPending(st: Stats, rows: seq<RawRow>, sink: nat -> bool)
    requires Streaming(st, rows, sink) && st.batch != []
    ensures Finished(Finish(st, sink(InsertCount(st.log))), rows, sink)
  {
    var ok := sink(InsertCount(st.log));
    var fin := Finish(st, ok);
    var e := Insert(st.batch, ok);
    assert fin.log == st.log + [e];
    assert fin.total == fin.processed + fin.errors by {
      Accounted(st, rows, sink);
    }
    assert PauseCount(fin.log) == ResumeCount(fin.log) && !Paused(fin.log) by {
      CyclesCounts(st.log);
      AppendCounts(st.log, e);
    }
    assert fin.processed == Committed(fin.log)
        && fin.errors == RejectedCount(rows) + Failed(fin.log)
        && Inserted(fin.log) == Accepted(rows) by {
      AppendRecords(st.log, e);
    }
    assert |Outcomes(fin.log)| == InsertCount(fin.log) && FollowsSink(Outcomes(fin.log), sink) by {
      AppendCounts(st.log, e);
      AppendLists(st.log, e);
      FollowsNext(Outcomes(st.log), sink);
    }
    assert FinalLog(fin.log) by {
      assert fin.log[..|fin.log| - 1] == st.log;
    }
  }

  /** The `end` handler turns the running invariant into the final one. */
  lemma FinishCompletes(st: Stats, rows: seq<RawRow>, sink: nat -> bool)
    requires Streaming(st, rows, sink)
    ensures Finished(Finish(st, sink(InsertCount(st.log))), rows, sink)
  {
    if st.batch == [] {
      FinishEmpty(st, rows, sink);
    } else {
      FinishPending(st, rows, sink);
    }
  }

  /** What the counts of a whole upload mean: `processedRecords` is the
      number of records whose insert succeeded and `errors` the rejected
      rows plus the records whose insert failed. On success every accepted
      record was handed to the store exactly once, in arrival order; after
      a stream fault the records handed over are followed in arrival order
      by the pending batch, which is counted nowhere. */
  lemma RunAccounts(rows: seq<RawRow>, sink: nat -> bool, streamFault: bool)
    ensures var st := Feed(rows, sink);
      var fin := if streamFault then st else Finish(st, sink(InsertCount(st.log)));
      var r := Run(rows, sink, streamFault);
      && r.processedRecords == Committed(fin.log)
      && r.errors == RejectedCount(rows) + Failed(fin.log)
      && (streamFault ==> Inserted(fin.log) + fin.batch == Accepted(rows))
      && (!streamFault ==> Inserted(fin.log) == Accepted(rows))
  {
    var st := Feed(rows, sink);
    FeedStreaming(rows, sink);
    if !streamFault {
      FinishCompletes(st, rows, sink);
    }
  }
}
