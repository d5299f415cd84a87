/** Runs of puts only: the last probes reported are the latest log records reported. */
module Agreement {
  import opened Bytes
  import opened Keys
  import opened Rows
  import opened LogStore
  import opened OtherScans
  import opened DbLog
  import opened Index
  import opened Runs

  ghost predicate NoNotes(rows: seq<Row>) {
    forall r :: r in rows ==> !IsNoteKey(r.key)
  }

  /** A run of puts that lose no write: `Runs.Perform` says which do. */
  ghost predicate CleanRun(states: seq<seq<Row>>, ops: seq<Op>) {
    && |states| == |ops| + 1
    && states[0] == []
    && forall i :: 0 <= i < |ops| ==> CleanPut(states[i], ops[i], states[i + 1])
  }

  lemma {:induction false} PairKeepsLogged(rows: seq<Row>, rec: LogRecord)
    requires WellFormed(rows) && ProbesLogged(rows) && NoNotes(rows)
    ensures ProbesLogged(PutAll(rows, Pair(rec))) && NoNotes(PutAll(rows, Pair(rec)))
  {
    hide Put, PutAll, WellFormedRow, LogVal, ProbeVal;
    var l, p := LogRow(rec.sa, rec.dt, rec.data), ProbeRow(rec.sa, rec.dt);
    KeyShapes(rec.sa, rec.dt, rec.data);
    PairIsTwoPuts(rows, rec);
    PutKeepsWellFormed(rows, l);
    var mid := Put(rows, l);
    PutKeepsWellFormed(mid, p);
    var rows' := Put(mid, p);
    assert l in rows';
    forall x | x in rows' && IsProbeKey(x.key) ensures LoggedAt(rows', x) {
      if x != p {
        assert x in rows && LoggedAt(rows, x);
        var r :| r in rows && IsLogKey(r.key) && x.key == ProbeKey(KeySa(r.key)) && KeyTime(r.key) == ProbeTime(x);
        assert r in rows';
      }
    }
  }

  lemma {:induction false} WritesKeepLogged(rows: seq<Row>, recs: seq<LogRecord>)
    requires WellFormed(rows) && ProbesLogged(rows) && NoNotes(rows)
    ensures ProbesLogged(PutAll(rows, Writes(recs))) && NoNotes(PutAll(rows, Writes(recs)))
  {
    hide Put, WellFormedRow, ProbesLogged, NoNotes;
    if recs != [] {
      var n := |recs| - 1;
      WritesKeepLogged(rows, recs[..n]);
      PutAllAppend(rows, Writes(recs[..n]), Pair(recs[n]));
      WritesWellFormed(recs[..n]);
      PutAllWellFormed(rows, Writes(recs[..n]));
      PairKeepsLogged(PutAll(rows, Writes(recs[..n])), recs[n]);
    }
  }

  lemma {:induction false} CleanRunKeepsLogged(states: seq<seq<Row>>, ops: seq<Op>)
    requires CleanRun(states, ops) && Rising(0, RunTimes(ops))
    ensures Indexed(states[|ops|], LastOr(0, RunTimes(ops))) && ProbesLogged(states[|ops|]) && NoNotes(states[|ops|])
  {
    hide Indexed, CleanPut, WellFormedRow, ProbesLogged, NoNotes;
    if ops == [] {
      EmptyStore();
      assert NoNotes([]) by { NothingNoted(); }
    } else {
      var n := |ops| - 1;
      assert CleanPut(states[n], ops[n], states[n + 1]);
      assert states[..|ops|][|ops| - 1] == states[n];
      RisingSplits(0, RunTimes(ops[..n]), OpTimes(ops[n]));
      CleanRunKeepsLogged(states[..|ops|], ops[..n]);
      CleanStepKeeps(states[n], ops[n], states[n + 1], LastOr(0, RunTimes(ops[..n])));
    }
  }

  lemma NothingNoted()
    ensures NoNotes([])
  {
  }

  lemma {:induction false} CleanStepKeeps(s: seq<Row>, op: Op, s': seq<Row>, now: int)
    requires Indexed(s, now) && ProbesLogged(s) && NoNotes(s)
    requires CleanPut(s, op, s') && Rising(now, OpTimes(op))
    ensures Indexed(s', LastOr(now, OpTimes(op))) && ProbesLogged(s') && NoNotes(s')
  {
    assert WellFormed(s);
    hide Indexed, WellFormedRow, ProbesLogged, NoNotes, PutAll;
    assert OpStep(s, op, s');
    StepKeepsIndex(s, op, s', now);
    if s' != s {
      WritesKeepLogged(s, RecordsOf(op));
      assert Writes(RecordsOf(op))[0..] == Writes(RecordsOf(op));
    }
  }

  // ---- The reports -----------------------------------------------------------------------

  /** dt is the latest time reported for the MAC. */
  ghost predicate IsLatest(reports: seq<Report>, sa: Mac, dt: Time) {
    && (exists r :: r in reports && r.sa == sa && r.dt == dt)
    && forall r :: r in reports && r.sa == sa ==> r.dt <= dt
  }

  ghost predicate ProbeAt(rows: seq<Row>, sa: Mac, dt: Time) {
    exists p :: p in rows && p.key == ProbeKey(sa) && ProbeTime(p) == dt
  }

  lemma ReportedIsProbe(rows: seq<Row>, q: Query, i: nat)
    requires WellFormed(rows) && i < |ProbesOf(rows, q)|
    ensures var rep := ProbeReport(ProbesOf(rows, q)[i]);
            ProbeAt(rows, rep.sa, rep.dt) && q.prefix <= rep.sa && q.lo <= rep.dt <= q.hi
  {
    var p := ProbesOf(rows, q)[i];
    assert p in ProbesOf(rows, q);
    assert p.key == [p.key[0]] + KeySa(p.key);
    assert p.key[1..1 + |q.prefix|] == KeySa(p.key)[..|q.prefix|];
  }

  lemma ProbeIsReported(rows: seq<Row>, q: Query, sa: Mac, dt: Time)
    requires WellFormed(rows) && ProbeAt(rows, sa, dt) && q.prefix <= sa && q.lo <= dt <= q.hi
    ensures Report(sa, dt, None) in ProbeReports(ProbesOf(rows, q))
  {
    var p :| p in rows && p.key == ProbeKey(sa) && ProbeTime(p) == dt;
    assert p.key[1..1 + |q.prefix|] == sa[..|q.prefix|];
    var kept := ProbesOf(rows, q);
    assert p in kept;
    var i :| 0 <= i < |kept| && kept[i] == p;
    assert ProbeReports(kept)[i] == Report(sa, dt, None);
  }

  lemma ProbeReported(rows: seq<Row>, q: Query, sa: Mac, dt: Time)
    requires WellFormed(rows)
    ensures Report(sa, dt, None) in ProbeReports(ProbesOf(rows, q))
            <==> ProbeAt(rows, sa, dt) && q.prefix <= sa && q.lo <= dt <= q.hi
  {
    hide ProbesOf, ProbeReport, WellFormed, ProbeAt;
    var kept := ProbesOf(rows, q);
    if Report(sa, dt, None) in ProbeReports(kept) {
      var i :| 0 <= i < |kept| && ProbeReports(kept)[i] == Report(sa, dt, None);
      ReportedIsProbe(rows, q, i);
    }
    if ProbeAt(rows, sa, dt) && q.prefix <= sa && q.lo <= dt <= q.hi {
      ProbeIsReported(rows, q, sa, dt);
    }
  }

  /** The last probes come in strictly ascending order of their MACs. */
  lemma ProbeReportsAscend(rows: seq<Row>, q: Query)
    requires WellFormed(rows)
    ensures var reports := ProbeReports(ProbesOf(rows, q));
            forall i, j :: 0 <= i < j < |reports| ==> Before(reports[i].sa, reports[j].sa)
  {
    var kept := ProbesOf(rows, q);
    KeepAscends(rows, WantedProbeBy(q));
    forall i, j | 0 <= i < j < |kept| ensures Before(ProbeReport(kept[i]).sa, ProbeReport(kept[j]).sa) {
      assert kept[i] in kept && kept[j] in kept;
      ProbeKeysOrdered(kept[i].key, kept[j].key);
    }
  }

  lemma ProbeKeysOrdered(a: seq<Byte>, b: seq<Byte>)
    requires IsProbeKey(a) && IsProbeKey(b) && Before(a, b)
    ensures Before(KeySa(a), KeySa(b))
  {
    assert a == [TAG_PROBE] + KeySa(a) && b == [TAG_PROBE] + KeySa(b);
    BeforeIrreflexive([TAG_PROBE]);
    BeforeByHead([TAG_PROBE], KeySa(a), [TAG_PROBE], KeySa(b));
  }

  /**
    What `readLastProbe` reports when the store has no notifications, for any arguments: the last probes
    whose MAC has the prefix and whose time lies between the ends, without data.
   */
  lemma {:induction false} ProbeReads(rows: seq<Row>, p: Prefix, start: Time, finish: Time, sa: Mac, dt: Time, d: Option<LogData>)
    requires WellFormed(rows) && NoNotes(rows)
    ensures Report(sa, dt, d) in ProbeReports(ProbeRows(rows, p, start, finish))
            <==> d == None && ProbeAt(rows, sa, dt) && p <= sa && Asked(start, finish, dt)
  {
    hide ProbeRows, ProbesOf, ProbeAt, WellFormed, QueryOf, Asked;
    ProbeScanIsExact(rows, p, start, finish);
    ProbeReported(rows, QueryOf(p, start, finish), sa, dt);
    QueryAsks(p, start, finish, dt);
    NoProbeData(rows, QueryOf(p, start, finish), Report(sa, dt, d));
  }

  lemma NoProbeData(rows: seq<Row>, q: Query, rep: Report)
    ensures rep in ProbeReports(ProbesOf(rows, q)) ==> rep.data == None
  {
  }

  // ---- What a batch stores --------------------------------------------------------------------

  /** The data of the last record of a batch with this MAC and time. */
  function LastData(recs: seq<LogRecord>, sa: Mac, dt: Time): Option<LogData> {
    if recs == [] then None
    else if recs[|recs| - 1].sa == sa && recs[|recs| - 1].dt == dt then Some(recs[|recs| - 1].data)
    else LastData(recs[..|recs| - 1], sa, dt)
  }

  /** The time of the last record of a batch with this MAC. */
  function LastTime(recs: seq<LogRecord>, sa: Mac): Option<Time> {
    if recs == [] then None
    else if recs[|recs| - 1].sa == sa then Some(recs[|recs| - 1].dt)
    else LastTime(recs[..|recs| - 1], sa)
  }

  /**
    After a batch that lost nothing the store has, for each MAC and time, the data of the batch's last record
    with them, and for each MAC the time of its last record as the last probe; or else what it had.
   */
  lemma {:induction false} BatchMeans(rows: seq<Row>, recs: seq<LogRecord>, sa: Mac, dt: Time, d: LogData)
    requires WellFormed(rows)
    ensures WellFormed(PutAll(rows, Writes(recs)))
    ensures Logged(PutAll(rows, Writes(recs)), sa, dt, d)
            <==> if LastData(recs, sa, dt).Some? then LastData(recs, sa, dt) == Some(d) else Logged(rows, sa, dt, d)
    ensures ProbeAt(PutAll(rows, Writes(recs)), sa, dt)
            <==> if LastTime(recs, sa).Some? then LastTime(recs, sa) == Some(dt) else ProbeAt(rows, sa, dt)
  {
    hide Logged, ProbeAt, WellFormed, Pair;
    assert Ascending(rows) by { Ascends(rows); }
    if recs != [] {
      var n := |recs| - 1;
      BatchMeans(rows, recs[..n], sa, dt, d);
      PutAllAppend(rows, Writes(recs[..n]), Pair(recs[n]));
      OneMoreRecord(PutAll(rows, Writes(recs[..n])), recs[n], sa, dt, d);
    }
  }

  lemma Ascends(rows: seq<Row>)
    requires WellFormed(rows)
    ensures Ascending(rows)
  {
  }

  lemma OneMoreRecord(rows: seq<Row>, rec: LogRecord, sa: Mac, dt: Time, d: LogData)
    requires WellFormed(rows)
    ensures WellFormed(PutAll(rows, Pair(rec)))
    ensures Logged(PutAll(rows, Pair(rec)), sa, dt, d)
            <==> if rec.sa == sa && rec.dt == dt then rec.data == d else Logged(rows, sa, dt, d)
    ensures ProbeAt(PutAll(rows, Pair(rec)), sa, dt)
            <==> if rec.sa == sa then rec.dt == dt else ProbeAt(rows, sa, dt)
  {
    hide Put, PutAll, LogVal, ProbeVal, WellFormedRow, LogKey, Ascending;
    var l, p := LogRow(rec.sa, rec.dt, rec.data), ProbeRow(rec.sa, rec.dt);
    KeyShapes(rec.sa, rec.dt, rec.data);
    LogKeyRoundTrip(sa, dt);
    LogValRoundTrip(rec.data);
    PairIsTwoPuts(rows, rec);
    PutKeepsWellFormed(rows, l);
    PutKeepsWellFormed(Put(rows, l), p);
    var rows' := PutAll(rows, Pair(rec));
    assert ProbeKey(sa)[1..] == sa && ProbeKey(rec.sa)[1..] == rec.sa;
    assert l in rows' && p in rows' && |l.key| != |p.key|;
    assert forall r :: r in rows' <==> r == l || r == p || (r in rows && r.key != l.key && r.key != p.key);
    if r :| r in rows && r.key == LogKey(sa, dt) && |r.val| == LOG_DATA_SIZE && DecodeLogVal(r.val) == d && r.key != l.key {
      assert r in rows';
    }
    if r :| r in rows && r.key == ProbeKey(sa) && ProbeTime(r) == dt && r.key != p.key {
      assert r in rows';
    }
  }

  ghost predicate LogAt(rows: seq<Row>, sa: Mac, dt: Time) {
    exists r :: r in rows && r.key == LogKey(sa, dt)
  }

  /** Over the whole range of times, the reports of a prefix are the records whose MAC has it. */
  lemma WholeRange(rows: seq<Row>, p: Prefix, sa: Mac, dt: Time)
    requires WellFormed(rows)
    ensures (exists r :: r in LogReports(ReadRows(rows, p, 0, 0)) && r.sa == sa && r.dt == dt)
            <==> LogAt(rows, sa, dt) && p <= sa
  {
    hide WellFormedRow, ReadRows, Wanted, LogVal;
    var q := QueryOf(p, 0, 0);
    ReadIsExact(rows, p, 0, 0);
    if r :| r in LogReports(ReadRows(rows, p, 0, 0)) && r.sa == sa && r.dt == dt {
      var i :| 0 <= i < |LogOf(rows, q)| && LogReports(LogOf(rows, q))[i] == r;
      ReportedIsLogged(rows, q, i);
    }
    if LogAt(rows, sa, dt) && p <= sa {
      var r :| r in rows && r.key == LogKey(sa, dt);
      LogRowValue(rows, r, sa, dt);
      LoggedIsReported(rows, q, sa, dt, DecodeLogVal(r.val));
    }
  }

  lemma LogRowValue(rows: seq<Row>, r: Row, sa: Mac, dt: Time)
    requires WellFormed(rows) && r in rows && r.key == LogKey(sa, dt)
    ensures |r.val| == LOG_DATA_SIZE && Logged(rows, sa, dt, DecodeLogVal(r.val))
  {
  }

  lemma {:induction false} LatestLog(rows: seq<Row>, p: Prefix, sa: Mac, dt: Time)
    requires WellFormed(rows)
    ensures IsLatest(LogReports(ReadRows(rows, p, 0, 0)), sa, dt)
            <==> p <= sa && LogAt(rows, sa, dt) && forall t: Time :: LogAt(rows, sa, t) ==> t <= dt
  {
    hide WellFormed, ReadRows, LogReports, LogAt;
    var reports := LogReports(ReadRows(rows, p, 0, 0));
    WholeRange(rows, p, sa, dt);
    if p <= sa && forall t: Time :: LogAt(rows, sa, t) ==> t <= dt {
      forall r | r in reports && r.sa == sa ensures r.dt <= dt {
        WholeRange(rows, p, sa, r.dt);
      }
    }
    if IsLatest(reports, sa, dt) {
      forall t: Time | LogAt(rows, sa, t) ensures t <= dt {
        WholeRange(rows, p, sa, t);
      }
    }
  }

  lemma {:induction false} ProbeCoversLogs(rows: seq<Row>, p: Row, sa: Mac, t: Time)
    requires WellFormed(rows) && ProbesCover(rows) && p in rows && p.key == ProbeKey(sa) && LogAt(rows, sa, t)
    ensures t <= ProbeTime(p)
  {
    var r :| r in rows && r.key == LogKey(sa, t);
    LogKeyRoundTrip(sa, t);
    assert Covers(p, r);
  }

  lemma ProbeHasLog(rows: seq<Row>, p: Row, sa: Mac)
    requires WellFormed(rows) && ProbesLogged(rows) && p in rows && p.key == ProbeKey(sa)
    ensures LogAt(rows, sa, ProbeTime(p))
  {
    assert IsProbeKey(p.key) && LoggedAt(rows, p);
    var r :| r in rows && IsLogKey(r.key) && p.key == ProbeKey(KeySa(r.key)) && KeyTime(r.key) == ProbeTime(p);
    LogKeyDecodes(r.key);
    assert p.key[1..] == sa && ProbeKey(KeySa(r.key))[1..] == KeySa(r.key);
  }

  lemma LogHasProbe(rows: seq<Row>, sa: Mac, t: Time) returns (p: Row)
    requires EveryLogHasProbe(rows) && LogAt(rows, sa, t)
    ensures p in rows && p.key == ProbeKey(sa)
  {
    LogKeyRoundTrip(sa, t);
    var r :| r in rows && r.key == LogKey(sa, t);
    assert HasProbe(rows, sa);
    p :| p in rows && p.key == ProbeKey(sa);
  }

  lemma {:induction false} ProbeIsLatestLog(rows: seq<Row>, sa: Mac, dt: Time)
    requires WellFormed(rows) && EveryLogHasProbe(rows) && ProbesCover(rows) && ProbesLogged(rows)
    ensures ProbeAt(rows, sa, dt) <==> LogAt(rows, sa, dt) && forall t: Time :: LogAt(rows, sa, t) ==> t <= dt
  {
    hide WellFormed, EveryLogHasProbe, ProbesCover, ProbesLogged, LogAt, ProbeTime;
    if ProbeAt(rows, sa, dt) {
      var p :| p in rows && p.key == ProbeKey(sa) && ProbeTime(p) == dt;
      ProbeHasLog(rows, p, sa);
      forall t: Time | LogAt(rows, sa, t) ensures t <= dt {
        ProbeCoversLogs(rows, p, sa, t);
      }
    }
    if LogAt(rows, sa, dt) && forall t: Time :: LogAt(rows, sa, t) ==> t <= dt {
      var p := LogHasProbe(rows, sa, dt);
      ProbeHasLog(rows, p, sa);
      ProbeCoversLogs(rows, p, sa, dt);
    }
  }

  /**
    After a run of puts with times that never decrease, no lost write and no notifications,
    `readLastProbe` over all times reports a time for a MAC exactly when it is the latest that
    `readLog` reports for that MAC, and each MAC once, in ascending order.
   */
  lemma {:induction false} LastProbeIsLatestLog(states: seq<seq<Row>>, ops: seq<Op>, p: Prefix, sa: Mac, dt: Time)
    requires CleanRun(states, ops) && Rising(0, RunTimes(ops))
    ensures var rows := states[|ops|];
            Report(sa, dt, None) in ProbeReports(ProbeRows(rows, p, 0, 0))
            <==> IsLatest(LogReports(ReadRows(rows, p, 0, 0)), sa, dt)
    ensures var reports := ProbeReports(ProbeRows(states[|ops|], p, 0, 0));
            forall i, j :: 0 <= i < j < |reports| ==> Before(reports[i].sa, reports[j].sa)
  {
    CleanRunKeepsLogged(states, ops);
    var rows := states[|ops|];
    hide WellFormedRow, ProbeRows, ReadRows, IsLatest, LogAt, CleanRun;
    ProbeScanIsExact(rows, p, 0, 0);
    ProbeReportsAscend(rows, QueryOf(p, 0, 0));
    ProbeReported(rows, QueryOf(p, 0, 0), sa, dt);
    ProbeIsLatestLog(rows, sa, dt);
    LatestLog(rows, p, sa, dt);
  }
}
