/** The closure state of one `upload` call and its two stream handlers, as
    an object whose methods update that state in place. */
module Upload {
  import opened Rows
  import opened Flow

  class Uploader {
    /** The store's answer to each bulk insert, by flush number. */
    const sink: nat -> bool

    var totalRecords: nat
    var processedRecords: nat
    var errors: nat
    var batch: seq<Record>
    /** Whether the CSV stream is paused. */
    var paused: bool
    /** Whether the `end` handler has run. */
    var ended: bool
    /** The calls made on the stream and on the store, in order. */
    var log: seq<Event>

    function Snapshot(): Stats
      reads this
    {
      Stats(totalRecords, processedRecords, errors, batch, log)
    }

    /** Between two events the stream is flowing, the batch is below
        capacity, and every row seen is processed, counted as an error, or
        (until the end) waiting in the batch. */
    ghost predicate Valid()
      reads this
    {
      && !paused && !Paused(log)
      && |batch| < BATCH_SIZE
      && (if ended then totalRecords == processedRecords + errors
          else totalRecords == processedRecords + errors + |batch|)
    }

    constructor (sink: nat -> bool)
      ensures Valid() && !ended && this.sink == sink
      ensures Snapshot() == Initial
    {
      this.sink := sink;
      totalRecords, processedRecords, errors := 0, 0, 0;
      batch, paused, ended, log := [], false, false, [];
    }

    /** `stream.pause()` */
    method Pause()
      modifies this`paused, this`log
      ensures paused && log == old(log) + [Flow.Pause]
    {
      paused := true;
      log := log + [Flow.Pause];
    }

    /** `stream.resume()` */
    method Resume()
      modifies this`paused, this`log
      ensures !paused && log == old(log) + [Flow.Resume]
    {
      paused := false;
      log := log + [Flow.Resume];
    }

    /** `Records.insertMany(records, { ordered: false })`: the answer is the
        sink's for this flush; `ok` is false where the call throws. */
    method InsertMany(records: seq<Record>) returns (ok: bool)
      modifies this`log
      ensures ok == sink(InsertCount(old(log)))
      ensures log == old(log) + [Insert(records, ok)]
    {
      ok := sink(InsertCount(log));
      log := log + [Insert(records, ok)];
    }

    /** The flush of a full batch inside the `data` handler. */
    method FlushBatch()
      modifies this
      ensures Snapshot() == Flow.Flush(old(Snapshot()), sink(InsertCount(old(log))))
      ensures !paused && !Paused(log) && ended == old(ended)
    {
      Pause();
      var ok := InsertMany(batch);
      if ok {
        processedRecords := processedRecords + |batch|;
        batch := [];
        Resume();
      } else {
        errors := errors + |batch|;
        batch := [];
        Resume();
      }
    }

    /** The `data` handler for one row. */
    method ProcessRow(row: RawRow)
      requires Valid() && !ended
      modifies this
      ensures Valid() && !ended
      ensures Snapshot() == Step(old(Snapshot()), row, sink(InsertCount(old(log))))
      ensures totalRecords == old(totalRecords) + 1
      ensures |batch| < BATCH_SIZE && !paused
    {
      ghost var before := Snapshot();
      ghost var ok := sink(InsertCount(log));
      totalRecords := totalRecords + 1;
      var record := Validate(row);
      if record.None? {
        errors := errors + 1;
      } else {
        batch := batch + [record.value];
        if |batch| >= BATCH_SIZE {
          FlushBatch();
        }
      }
      assert Snapshot() == Step(before, row, ok);
    }

    /** The `end` handler: the final flush of a non-empty batch. */
    method End()
      requires Valid() && !ended
      modifies this
      ensures Valid() && ended
      ensures Snapshot() == Finish(old(Snapshot()), sink(InsertCount(old(log))))
      ensures totalRecords == processedRecords + errors
    {
      if |batch| > 0 {
        var ok := InsertMany(batch);
        AppendCounts(old(log), Insert(batch, ok));
        if ok {
          processedRecords := processedRecords + |batch|;
        } else {
          errors := errors + |batch|;
        }
      }
      ended := true;
    }

    /** The success response, once the stream has ended. */
    function Summary(): (r: Response)
      reads this
      requires Valid() && ended
      ensures r.success
      ensures r.totalRecords == r.processedRecords + r.errors
    {
      Response(true, totalRecords, processedRecords, errors)
    }

    /** The failure response after a stream fault: the counters reached so
        far, which leave the pending batch unaccounted for. */
    function FailureSummary(): (r: Response)
      reads this
      requires Valid() && !ended
      ensures !r.success
      ensures r.totalRecords == r.processedRecords + r.errors + |batch|
    {
      Response(false, totalRecords, processedRecords, errors)
    }
  }

  /** One upload of `rows` against a store that answers `sink(k)` to the
      k-th bulk insert. With `streamFault` the stream fails after the last
      row and the `end` handler never runs. */
  method Upload(rows: seq<RawRow>, sink: nat -> bool, streamFault: bool) returns (r: Response)
    ensures r == Run(rows, sink, streamFault)
    ensures r.success == !streamFault && r.totalRecords == |rows|
    ensures r.success ==> r.totalRecords == r.processedRecords + r.errors
  {
    var u := new Uploader(sink);
    var i := 0;
    while i < |rows|
      invariant 0 <= i <= |rows|
      invariant fresh(u) && u.Valid() && !u.ended && u.sink == sink
      invariant u.Snapshot() == Feed(rows[..i], sink)
    {
      assert rows[..i + 1][..i] == rows[..i];
      u.ProcessRow(rows[i]);
      i := i + 1;
    }
    assert rows[..|rows|] == rows;
    if streamFault {
      r := u.FailureSummary();
    } else {
      u.End();
      r := u.Summary();
    }
  }
}
