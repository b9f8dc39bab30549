/** Whole-upload consequences of the ingestion invariant: every batch is
    attempted whatever the store answered before, committed work is never
    taken back, and the outcomes of a few concrete uploads. */
module Scenarios {
  import opened Rows
  import opened Flow

  predicate AllValid(rows: seq<RawRow>) {
    forall i :: 0 <= i < |rows| ==> Validate(rows[i]).Some?
  }

  lemma {:induction false} AllValidNoneRejected(rows: seq<RawRow>)
    requires AllValid(rows)
    ensures RejectedCount(rows) == 0 && |Accepted(rows)| == |rows|
  {
    if rows != [] {
      AllValidNoneRejected(rows[..|rows| - 1]);
    }
    PartitionRows(rows);
  }

  lemma {:induction false} RejectedCountSplit(a: seq<RawRow>, b: seq<RawRow>)
    ensures RejectedCount(a + b) == RejectedCount(a) + RejectedCount(b)
  {
    if b == [] {
      assert a + b == a;
    } else {
      var p := b[..|b| - 1];
      RejectedCountSplit(a, p);
      assert (a + b)[..|a + b| - 1] == a + p;
      assert (a + b)[|a + b| - 1] == b[|b| - 1];
      assert RejectedCount(b) == RejectedCount(p) + (if Validate(b[|b| - 1]).None? then 1 else 0);
    }
  }

  /** A log with no failed insert has failed no record. */
  lemma {:induction false} NoFalseNoFailure(log: seq<Event>)
    requires forall i :: 0 <= i < |Outcomes(log)| ==> Outcomes(log)[i]
    ensures Failed(log) == 0
  {
    if log != [] {
      var p := log[..|log| - 1];
      var e := log[|log| - 1];
      assert log == p + [e];
      AppendLists(p, e);
      AppendRecords(p, e);
      forall i | 0 <= i < |Outcomes(p)| ensures Outcomes(p)[i] {
        assert Outcomes(p)[i] == Outcomes(log)[i];
      }
      if e.Insert? {
        assert Outcomes(log)[|Outcomes(p)|] == e.ok;
      }
      NoFalseNoFailure(p);
    }
  }

  lemma {:induction false} CommittedGrows(a: seq<Event>, b: seq<Event>)
    requires a <= b
    ensures Committed(a) <= Committed(b)
  {
    if |a| < |b| {
      var p := b[..|b| - 1];
      assert a <= p;
      CommittedGrows(a, p);
    } else {
      assert a == b;
    }
  }

  /** The log only ever grows, so what a prefix of the rows committed stays
      committed: a later failed batch takes nothing back. */
  lemma {:induction false} FeedExtends(rows: seq<RawRow>, n: nat, sink: nat -> bool)
    requires n <= |rows|
    ensures Feed(rows[..n], sink).log <= Feed(rows, sink).log
    ensures Committed(Feed(rows[..n], sink).log) <= Committed(Feed(rows, sink).log)
  {
    if n < |rows| {
      var p := rows[..|rows| - 1];
      assert p[..n] == rows[..n];
      FeedExtends(p, n, sink);
      var before := Feed(p, sink).log;
      var after := Feed(rows, sink).log;
      assert before <= after;
      CommittedGrows(Feed(rows[..n], sink).log, after);
    } else {
      assert rows[..n] == rows;
    }
  }

  /** Uploading all-valid rows: one flush per full thousand, whatever the
      store answered, and the rest waits in the batch. */
  lemma AllValidFeed(rows: seq<RawRow>, sink: nat -> bool)
    requires AllValid(rows)
    ensures var st := Feed(rows, sink);
      && |rows| == BATCH_SIZE * InsertCount(st.log) + |st.batch|
      && |st.batch| < BATCH_SIZE
      && st.errors == Failed(st.log)
  {
    FeedStreaming(rows, sink);
    FlushCount(Feed(rows, sink), rows, sink);
    AllValidNoneRejected(rows);
  }

  /** Against a store that always succeeds, the errors are exactly the
      rejected rows and everything else is processed. */
  lemma AllOkRun(rows: seq<RawRow>, sink: nat -> bool)
    requires forall k :: sink(k)
    ensures Run(rows, sink, false)
         == Response(true, |rows|, |rows| - RejectedCount(rows), RejectedCount(rows))
  {
    var st := Feed(rows, sink);
    var fin := Finish(st, sink(InsertCount(st.log)));
    assert Failed(fin.log) == 0 by {
      FeedStreaming(rows, sink);
      FinishCompletes(st, rows, sink);
      forall i | 0 <= i < |Outcomes(fin.log)| ensures Outcomes(fin.log)[i] {
        assert Outcomes(fin.log)[i] == sink(i);
      }
      NoFalseNoFailure(fin.log);
    }
    RunAccounts(rows, sink, false);
  }

  /** Valid rows against a store that always succeeds: every row is
      processed and none is an error. */
  lemma AllValidAllOk(rows: seq<RawRow>, sink: nat -> bool)
    requires AllValid(rows)
    requires forall k :: sink(k)
    ensures Run(rows, sink, false) == Response(true, |rows|, |rows|, 0)
  {
    AllOkRun(rows, sink);
    AllValidNoneRejected(rows);
  }

  /** 2,500 valid rows against a store that always succeeds: three inserts
      of 1000, 1000 and 500 records, all of them processed, no error. */
  lemma TwoAndAHalfBatches(rows: seq<RawRow>, sink: nat -> bool)
    requires |rows| == 2500 && AllValid(rows)
    requires forall k :: sink(k)
    ensures Run(rows, sink, false) == Response(true, 2500, 2500, 0)
    ensures BatchSizes(Finish(Feed(rows, sink), true).log) == [1000, 1000, 500]
  {
    AllValidAllOk(rows, sink);
    var st := Feed(rows, sink);
    AllValidFeed(rows, sink);
    FeedStreaming(rows, sink);
    TwoFullOneHalf(st);
  }

  lemma TwoFullOneHalf(st: Stats)
    requires Cycles(st.log) && InsertCount(st.log) == 2 && |st.batch| == 500
    ensures BatchSizes(Finish(st, true).log) == [1000, 1000, 500]
  {
    CyclesSizes(st.log);
    assert BatchSizes(st.log) == [1000, 1000];
    assert Finish(st, true).log == st.log + [Insert(st.batch, true)];
    AppendLists(st.log, Insert(st.batch, true));
  }

  /** Ten rows of which the fifth has an empty email, against a store that
      always succeeds: ten seen, nine processed, one error. */
  lemma OneBadRowInTen(rows: seq<RawRow>, sink: nat -> bool)
    requires |rows| == 10
    requires forall i :: 0 <= i < 10 && i != 4 ==> Validate(rows[i]).Some?
    requires rows[4].email == Options.Some("")
    requires forall k :: sink(k)
    ensures Run(rows, sink, false) == Response(true, 10, 9, 1)
  {
    AllOkRun(rows, sink);
    RejectedFifth(rows);
  }

  lemma RejectedFifth(rows: seq<RawRow>)
    requires |rows| == 10
    requires forall i :: 0 <= i < 10 && i != 4 ==> Validate(rows[i]).Some?
    requires rows[4].email == Options.Some("")
    ensures RejectedCount(rows) == 1
  {
    assert rows == rows[..4] + [rows[4]] + rows[5..];
    assert AllValid(rows[..4]) by {
      forall i | 0 <= i < 4 ensures Validate(rows[..4][i]).Some? {
        assert rows[..4][i] == rows[i];
      }
    }
    assert AllValid(rows[5..]) by {
      forall i | 0 <= i < 5 ensures Validate(rows[5..][i]).Some? {
        assert rows[5..][i] == rows[i + 5];
      }
    }
    AllValidNoneRejected(rows[..4]);
    AllValidNoneRejected(rows[5..]);
    RejectedCountSplit(rows[..4], [rows[4]]);
    RejectedCountSplit(rows[..4] + [rows[4]], rows[5..]);
    assert RejectedCount([rows[4]]) == 1 by {
      assert [rows[4]][..0] == [];
    }
  }

  /** Between 2,001 and 2,999 valid rows, the second of three inserts failing:
      its thousand records are errors, the other two batches commit. */
  lemma SecondBatchFails(rows: seq<RawRow>, sink: nat -> bool)
    requires 2000 < |rows| < 3000 && AllValid(rows)
    requires forall k :: sink(k) == (k != 1)
    ensures Run(rows, sink, false) == Response(true, |rows|, |rows| - 1000, 1000)
  {
    var st := Feed(rows, sink);
    AllValidFeed(rows, sink);
    FeedStreaming(rows, sink);
    assert InsertCount(st.log) == 2 && |st.batch| == |rows| - 2000;
    CyclesCommitted(st.log);
    assert Outcomes(st.log) == [true, false] by {
      assert Outcomes(st.log)[0] == sink(0);
      assert Outcomes(st.log)[1] == sink(1);
    }
    assert TrueCount([true, false]) == 1 by {
      assert [true, false][..1] == [true];
      assert [true][..0] == [];
    }
    assert st.processed == 1000;
    var fin := Finish(st, sink(2));
    assert fin.processed == |rows| - 1000;
    RunAccounts(rows, sink, false);
  }

  /** A stream fault after 400 valid rows: the failure response reports the
      400 rows seen, nothing processed and no error, because the pending
      batch is never inserted and counted nowhere. */
  lemma FaultAfterFourHundred(rows: seq<RawRow>, sink: nat -> bool)
    requires |rows| == 400 && AllValid(rows)
    ensures Run(rows, sink, true) == Response(false, 400, 0, 0)
  {
    var st := Feed(rows, sink);
    AllValidFeed(rows, sink);
    FeedStreaming(rows, sink);
    assert InsertCount(st.log) == 0;
    CyclesInserted(st.log);
    InsertedSplit(st.log);
  }
}
