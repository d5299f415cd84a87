/** The reading scans `readLog` and `readLastProbe` (dblog.cpp). */
module DbRead {
  import opened Bytes
  import opened Keys
  import opened Rows
  import opened Seqs
  import opened Cursors
  import opened Lmdb
  import opened LogStore
  import opened OtherScans
  import opened DbLog
  import opened Callbacks

  /**
    The tests of the loop of `readLog`, in its order.  The time of a key too short to hold one
    is whatever lies behind it in memory: an arbitrary value, which may send the scan on or stop
    it, but never changes what is reported.
   */
  method ReadJudge(sa: Option<Mac>, sz: nat, lo: Time, hi: Time, row: Row,
                   ghost rows: seq<Row>, ghost i: nat, ghost q: Query, ghost seek: seq<Byte>)
    returns (v: Verdict, dt: Time)
    requires WellFormed(rows) && i < |rows| && row == rows[i] && !Before(row.key, seek)
    requires sz <= 6 && q == Query(if sa.Some? then sa.value[..sz] else [], lo, hi) && sz == |q.prefix|
    requires |seek| >= 1 + sz && seek[..1 + sz] == BlockKey(TAG_LOG, q.prefix)
    ensures v == Stop ==> forall j :: i <= j < |rows| ==> !ReachedBy(q, seek)(rows[j])
    ensures v == Skip ==> !ReachedBy(q, seek)(row)
    ensures v == Take ==> ReachedBy(q, seek)(row) && |row.key| >= 7 && |row.val| == LOG_DATA_SIZE
                          && LogReport(row) == Report(KeySa(row.key), dt, Some(DecodeLogVal(row.val)))
  {
    assert row in rows;
    dt := *;
    if |row.val| < LOG_DATA_SIZE {
      v := Skip;
      return;
    }
    if |row.key| >= LOG_KEY_SIZE {
      dt := KeyTime(row.key);
    }
    if sa.Some? && sz != 0 && row.key[1..1 + sz] != sa.value[..sz] {
      StopAtPrefix(rows, i, q, seek);
      v := Stop;
      return;
    }
    if dt > hi {
      if sz == 6 {
        if row.key[0] == TAG_LOG { StopAtTime(rows, i, q); } else { StopAtTag(rows, i, q, seek); }
        v := Stop;
      } else {
        v := Skip;
      }
      return;
    }
    if dt < lo {
      v := Skip;
      return;
    }
    if row.key[0] != TAG_LOG {
      StopAtTag(rows, i, q, seek);
      v := Stop;
      return;
    }
    v := Take;
  }

  lemma ReportNext(rows: seq<Row>, i: nat, f: Row -> bool, g: Row -> Report)
    requires i < |rows|
    ensures f(rows[i]) ==> Map(g, Keep(rows[..i + 1], f)) == Map(g, Keep(rows[..i], f)) + [g(rows[i])]
    ensures !f(rows[i]) ==> Map(g, Keep(rows[..i + 1], f)) == Map(g, Keep(rows[..i], f))
  {
    assert rows[..i + 1][..i] == rows[..i];
  }

  /** What a stopped callback has seen does not depend on the rows the scan left out. */
  lemma {:induction false} FeedStopped(v: View, rows: seq<Row>, i: nat, f: Row -> bool, g: Row -> Report)
    requires ValidView(v) && i <= |rows| && Feed(v, Map(g, Keep(rows[..i], f))).stopped
    ensures Feed(v, Map(g, Keep(rows, f))) == Feed(v, Map(g, Keep(rows[..i], f)))
  {
    hide Feed, Step, Keep, Map, ValidView;
    assert rows == rows[..i] + rows[i..];
    KeepAppend(rows[..i], rows[i..], f);
    MapAppend(g, Keep(rows[..i], f), Keep(rows[i..], f));
    FeedAppend(v, Map(g, Keep(rows[..i], f)), Map(g, Keep(rows[i..], f)));
  }

  lemma LogReportNext(rows: seq<Row>, i: nat, f: Row -> bool)
    requires i < |rows|
    ensures f(rows[i]) ==> LogReports(Keep(rows[..i + 1], f)) == LogReports(Keep(rows[..i], f)) + [LogReport(rows[i])]
    ensures !f(rows[i]) ==> LogReports(Keep(rows[..i + 1], f)) == LogReports(Keep(rows[..i], f))
  {
    ReportNext(rows, i, f, LogReport);
  }

  lemma {:induction false} LogFeedStopped(v: View, rows: seq<Row>, i: nat, f: Row -> bool)
    requires ValidView(v) && i <= |rows| && Feed(v, LogReports(Keep(rows[..i], f))).stopped
    ensures Feed(v, LogReports(Keep(rows, f))) == Feed(v, LogReports(Keep(rows[..i], f)))
  {
    hide Feed;
    FeedStopped(v, rows, i, f, LogReport);
  }

  /** One more record for the callback. */
  method Deliver(onLog: OnLog, rep: Report, ghost v: View, ghost seen: seq<Report>) returns (stop: bool)
    requires ValidView(v) && !onLog.NoCallback? && onLog.Valid()
    requires Feed(v, seen) == Fed(onLog.State(), false)
    modifies onLog.Footprint()
    ensures onLog.Valid() && Feed(v, seen + [rep]) == Fed(onLog.State(), stop)
  {
    hide OnLog.State, Step, Feed;
    FeedNext(v, seen, rep);
    stop := onLog.Call(rep);
  }

  /** The loop of `readLog`. */
  method ReadScan(env: DbEnv, sa: Option<Mac>, sz: nat, lo: Time, hi: Time, first: Row, onLog: OnLog,
                  ghost rows: seq<Row>, ghost q: Query, ghost seek: seq<Byte>)
    requires env.Valid() && env.inTxn && env.pending == rows && WellFormed(rows)
    requires SeekPos(rows, seek) < |rows| && first == rows[SeekPos(rows, seek)] && env.cursorKey == first.key
    requires sz <= 6 && q == Query(if sa.Some? then sa.value[..sz] else [], lo, hi) && sz == |q.prefix|
    requires |seek| >= 1 + sz && seek[..1 + sz] == BlockKey(TAG_LOG, q.prefix)
    requires !onLog.NoCallback? && onLog.Valid() && env !in onLog.Footprint()
    modifies env`cursorKey, onLog.Footprint()
    ensures onLog.Valid()
    ensures onLog.State() == Feed(old(onLog.State()), LogReports(Keep(rows, ReachedBy(q, seek)))).view
  {
    hide SeekPos, AfterPos, Ascending, WellFormed, ReachedBy, Keep, Feed, Step, ValidView, LogReports, LogReport, Thinned, OnLog.State;
    ghost var i, f := SeekPos(rows, seek), ReachedBy(q, seek);
    BeforeSeek(rows, q, seek);
    StartStep(rows, i, f);
    ghost var v := onLog.State();
    FeedNothing(v);
    var row, r := first, 0;
    while true
      invariant SeekPos(rows, seek) <= i < |rows| && row == rows[i] && env.cursorKey == row.key
      invariant onLog.Valid()
      invariant Feed(v, LogReports(Keep(rows[..i], f))) == Fed(onLog.State(), false)
      decreases |rows| - i
    {
      var verdict, dt := ReadJudge(sa, sz, lo, hi, row, rows, i, q, seek);
      LogReportNext(rows, i, f);
      if verdict == Stop {
        break;
      } else if verdict == Take {
        var stop := Deliver(onLog, Report(KeySa(row.key), dt, Some(DecodeLogVal(row.val))), v, LogReports(Keep(rows[..i], f)));
        if stop {
          LogFeedStopped(v, rows, i + 1, f);
          return;
        }
      }
      AfterSelf(rows, i);
      i := i + 1;
      r, row := env.Next();
      if r != 0 {
        break;
      }
    }
    StopStep(rows, i, f);
  }

  lemma FeedNothing(v: View)
    requires ValidView(v)
    ensures Feed(v, []) == Fed(v, false)
    ensures Feed(v, LogReports([])) == Fed(v, false) && Feed(v, ProbeReports([])) == Fed(v, false)
  {
  }

  /** The part of `readLog` between opening the cursor and ending the transaction. */
  method SeekAndRead(env: DbEnv, sa: Option<Mac>, saSize: int, start: Time, finish: Time, onLog: OnLog) returns (r: int)
    requires env.Valid() && env.inTxn && WellFormed(env.pending)
    requires sa.None? ==> saSize <= 0
    requires !onLog.NoCallback? && onLog.Valid() && env !in onLog.Footprint()
    modifies env`cursorKey, onLog.Footprint()
    ensures onLog.Valid() && r in {MDB_SUCCESS, MDB_NOTFOUND}
    ensures r == MDB_NOTFOUND <==> SeekPos(env.pending, ReadSeekKey(PrefixOf(sa, saSize), start)) == |env.pending|
    ensures onLog.State()
            == Feed(old(onLog.State()), LogReports(ReadRows(env.pending, PrefixOf(sa, saSize), start, finish))).view
  {
    hide SeekPos, Ascending, WellFormed, ReachedBy, ReadSeekKey, Feed, Step, ValidView, Keep, LogReports, Thinned, OnLog.State;
    ghost var rows := env.pending;
    var p := PrefixOf(sa, saSize);
    var seek := ReadSeekKey(p, start);
    var row: Row;
    r, row := env.SetRange(seek);
    if r != 0 {
      BeforeSeek(rows, QueryOf(p, start, finish), seek);
      StartStep(rows, |rows|, ReachedBy(QueryOf(p, start, finish), seek));
      assert rows[..|rows|] == rows;
      FeedNothing(onLog.State());
      return;
    }
    var lo, hi := InOrder(p, start, finish);
    SeekKeyInBlock(p, start);
    ReadScan(env, sa, ClampSize(saSize), lo, hi, row, onLog, rows, Query(p, lo, hi), seek);
  }

  /**
    Reads log records: the callback gets the records of `ReadRows` in order until it asks to
    stop.  Not-found means that no key of the store is at or after the seek key.
   */
  method ReadLog(env: DbEnv, sa: Option<Mac>, saSize: int, start: Time, finish: Time, onLog: OnLog) returns (r: int)
    requires env.Valid() && !env.inTxn && WellFormed(env.committed)
    requires sa.None? ==> saSize <= 0
    requires onLog.Valid() && env !in onLog.Footprint()
    modifies env, onLog.Footprint()
    ensures env.Valid() && !env.inTxn && env.committed == old(env.committed) && onLog.Valid()
    ensures onLog.NoCallback? ==> r == ERRCODE_WRONG_PARAM
    ensures env.hard >= old(env.hard) && env.commitFull >= old(env.commitFull)
    ensures env.hard == old(env.hard) && !onLog.NoCallback? ==>
              var p := PrefixOf(sa, saSize);
              && onLog.State() == Feed(old(onLog.State()), LogReports(ReadRows(env.committed, p, start, finish))).view
              && (r == MDB_NOTFOUND <==> SeekPos(env.committed, ReadSeekKey(p, start)) == |env.committed|)
              && (r != MDB_NOTFOUND ==> r == if env.commitFull == old(env.commitFull) then 0 else ERRCODE_LMDB_TXN_COMMIT)
  {
    hide SeekPos, Ascending, WellFormed, ReadRows, ReadSeekKey, Feed, Step, ValidView, Keep, LogReports, OnLog.State;
    if onLog.NoCallback? {
      return ERRCODE_WRONG_PARAM;
    }
    r := OpenCursor(env);
    if r != 0 {
      return;
    }
    r := SeekAndRead(env, sa, saSize, start, finish, onLog);
    if r != 0 {
      var ignored := env.Commit();
      return;
    }
    r := env.Commit();
    if r != 0 {
      return ERRCODE_LMDB_TXN_COMMIT;
    }
  }

  // ---- Last probes -----------------------------------------------------------------------

  /** The reports of the scan from row i up to row j. */
  function ProbesBetween(rows: seq<Row>, i: nat, j: nat, q: Query): seq<Report>
    requires i <= j <= |rows|
  {
    ProbeReports(Keep(rows[i..j], ProbeLikeBy(q)))
  }

  lemma ProbeReportNext(rows: seq<Row>, i: nat, j: nat, q: Query)
    requires i <= j < |rows|
    ensures ProbeLike(q, rows[j]) ==> ProbesBetween(rows, i, j + 1, q) == ProbesBetween(rows, i, j, q) + [ProbeReport(rows[j])]
    ensures !ProbeLike(q, rows[j]) ==> ProbesBetween(rows, i, j + 1, q) == ProbesBetween(rows, i, j, q)
    ensures ProbesBetween(rows, i, i, q) == []
  {
    KeepNext(rows, i, j, ProbeLikeBy(q));
    assert rows[i..i] == [];
  }

  lemma {:induction false} ProbeFeedStopped(v: View, rows: seq<Row>, i: nat, j: nat, e: nat, q: Query)
    requires ValidView(v) && i <= j <= e <= |rows| && Feed(v, ProbesBetween(rows, i, j, q)).stopped
    ensures Feed(v, ProbesBetween(rows, i, e, q)) == Feed(v, ProbesBetween(rows, i, j, q))
  {
    hide Feed;
    assert rows[i..e][..j - i] == rows[i..j];
    FeedStopped(v, rows[i..e], j - i, ProbeLikeBy(q), ProbeReport);
  }

  /** A row that lets the scan go on belongs to its stretch, and one that stops it ends the stretch. */
  lemma StretchStep(rows: seq<Row>, i: nat, j: nat, p: Prefix)
    requires i <= |rows| && i <= j <= i + StretchLen(rows, i, p)
    ensures j < |rows| && GoesOn(rows[j], p) ==> j + 1 <= i + StretchLen(rows, i, p)
    ensures j == |rows| || !GoesOn(rows[j], p) ==> j == i + StretchLen(rows, i, p)
  {
  }

  /** The tests of the loop of `readLastProbe`, in its order. */
  method ProbeJudge(sa: Option<Mac>, sz: nat, lo: Time, hi: Time, row: Row, ghost q: Query)
    returns (v: Verdict, dt: Time)
    requires sz <= 6 && q == Query(if sa.Some? then sa.value[..sz] else [], lo, hi) && sz == |q.prefix|
    ensures v == Stop <==> !GoesOn(row, q.prefix)
    ensures v == Take ==> ProbeLike(q, row) && |row.key| >= 7 && ProbeReport(row) == Report(KeySa(row.key), dt, None)
    ensures v == Skip ==> !ProbeLike(q, row)
  {
    v, dt := Skip, 0;
    if |row.key| < PROBE_KEY_SIZE || |row.val| < PROBE_VAL_SIZE {
      return;
    }
    if sa.Some? && row.key[1..1 + sz] != sa.value[..sz] {
      v := Stop;
      return;
    }
    dt := DecodeProbeVal(row.val);
    if dt > hi || dt < lo {
      return;
    }
    v := Take;
  }

  /** The loop of `readLastProbe`. */
  method ProbeScan(env: DbEnv, sa: Option<Mac>, sz: nat, lo: Time, hi: Time, first: Row, onLog: OnLog,
                   ghost rows: seq<Row>, ghost q: Query)
    requires env.Valid() && env.inTxn && env.pending == rows && WellFormed(rows)
    requires sz <= 6 && q == Query(if sa.Some? then sa.value[..sz] else [], lo, hi) && sz == |q.prefix|
    requires ProbeStart(rows, q.prefix) < |rows| && first == rows[ProbeStart(rows, q.prefix)] && env.cursorKey == first.key
    requires !onLog.NoCallback? && onLog.Valid() && env !in onLog.Footprint()
    modifies env`cursorKey, onLog.Footprint()
    ensures onLog.Valid()
    ensures var i := ProbeStart(rows, q.prefix);
            onLog.State() == Feed(old(onLog.State()), ProbesBetween(rows, i, i + StretchLen(rows, i, q.prefix), q)).view
  {
    hide ProbeStart, AfterPos, Ascending, WellFormed, StretchLen, GoesOn, ProbeLike, ProbesBetween,
      Feed, Step, ValidView, ProbeReport, OnLog.State;
    ghost var i0, v := ProbeStart(rows, q.prefix), onLog.State();
    ghost var i, e := i0, i0 + StretchLen(rows, i0, q.prefix);
    ProbeReportNext(rows, i0, i0, q);
    FeedNothing(v);
    var row, r := first, 0;
    while true
      invariant i0 <= i < |rows| && i <= e && row == rows[i] && env.cursorKey == row.key
      invariant onLog.Valid()
      invariant Feed(v, ProbesBetween(rows, i0, i, q)) == Fed(onLog.State(), false)
      decreases |rows| - i
    {
      StretchStep(rows, i0, i, q.prefix);
      var verdict, dt := ProbeJudge(sa, sz, lo, hi, row, q);
      if verdict == Stop {
        break;
      }
      ProbeReportNext(rows, i0, i, q);
      if verdict == Take {
        var stop := Deliver(onLog, Report(KeySa(row.key), dt, None), v, ProbesBetween(rows, i0, i, q));
        if stop {
          ProbeFeedStopped(v, rows, i0, i + 1, e, q);
          return;
        }
      }
      AfterSelf(rows, i);
      i := i + 1;
      r, row := env.Next();
      if r != 0 {
        StretchStep(rows, i0, i, q.prefix);
        break;
      }
    }
  }

  lemma NoProbeRows(rows: seq<Row>, p: Prefix, start: Time, finish: Time)
    requires ProbeStart(rows, p) == |rows|
    ensures ProbeRows(rows, p, start, finish) == []
  {
  }

  /** The part of `readLastProbe` between opening the cursor and ending the transaction. */
  method SeekAndReadProbes(env: DbEnv, sa: Option<Mac>, saSize: int, start: Time, finish: Time, onLog: OnLog)
    returns (r: int)
    requires env.Valid() && env.inTxn && WellFormed(env.pending)
    requires sa.None? ==> saSize <= 0
    requires !onLog.NoCallback? && onLog.Valid() && env !in onLog.Footprint()
    modifies env`cursorKey, onLog.Footprint()
    ensures onLog.Valid() && r in {MDB_SUCCESS, MDB_NOTFOUND}
    ensures r == MDB_NOTFOUND <==> ProbeStart(env.pending, PrefixOf(sa, saSize)) == |env.pending|
    ensures onLog.State()
            == Feed(old(onLog.State()), ProbeReports(ProbeRows(env.pending, PrefixOf(sa, saSize), start, finish))).view
  {
    hide SeekPos, Ascending, WellFormed, Feed, Step, ValidView, Keep, ProbeReports, StretchLen, ProbeLikeBy, OnLog.State;
    ghost var rows := env.pending;
    var p := PrefixOf(sa, saSize);
    var row: Row;
    r, row := env.SetRange(BlockKey(TAG_PROBE, p));
    if r != 0 {
      NoProbeRows(rows, p, start, finish);
      FeedNothing(onLog.State());
      return;
    }
    var lo, hi := InOrder(p, start, finish);
    ProbeScan(env, sa, ClampSize(saSize), lo, hi, row, onLog, rows, Query(p, lo, hi));
  }

  /** Reads last probes: the callback gets the rows of `ProbeRows` in order until it asks to stop. */
  method ReadLastProbe(env: DbEnv, sa: Option<Mac>, saSize: int, start: Time, finish: Time, onLog: OnLog) returns (r: int)
    requires env.Valid() && !env.inTxn && WellFormed(env.committed)
    requires sa.None? ==> saSize <= 0
    requires onLog.Valid() && env !in onLog.Footprint()
    modifies env, onLog.Footprint()
    ensures env.Valid() && !env.inTxn && env.committed == old(env.committed) && onLog.Valid()
    ensures onLog.NoCallback? ==> r == ERRCODE_WRONG_PARAM
    ensures env.hard >= old(env.hard) && env.commitFull >= old(env.commitFull)
    ensures env.hard == old(env.hard) && !onLog.NoCallback? ==>
              var p := PrefixOf(sa, saSize);
              && onLog.State() == Feed(old(onLog.State()), ProbeReports(ProbeRows(env.committed, p, start, finish))).view
              && (r == MDB_NOTFOUND <==> ProbeStart(env.committed, p) == |env.committed|)
              && (r != MDB_NOTFOUND ==> r == if env.commitFull == old(env.commitFull) then 0 else ERRCODE_LMDB_TXN_COMMIT)
  {
    hide ProbeStart, Ascending, WellFormed, ProbeRows, Feed, Step, ValidView, Keep, ProbeReports, OnLog.State;
    if onLog.NoCallback? {
      return ERRCODE_WRONG_PARAM;
    }
    r := OpenCursor(env);
    if r != 0 {
      return;
    }
    r := SeekAndReadProbes(env, sa, saSize, start, finish, onLog);
    if r != 0 {
      var ignored := env.Commit();
      return;
    }
    r := env.Commit();
    if r != 0 {
      return ERRCODE_LMDB_TXN_COMMIT;
    }
  }
}
